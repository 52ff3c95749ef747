/** What a restart cannot change about decisions. */
module Restart {
  import opened Bytes
  import opened History
  import opened Policy
  import opened Samples
  import opened SlowWindow
  import opened Survival
  import opened Bleed
  import opened Records
  import opened Journal
  import opened JournalRuns

  // ---------------------------------------------------------------------
  // No guard reads what normalisation changes.

  lemma {:induction false} NormalisePairs(tl: Timeline)
    ensures Pairs(NormaliseAll(tl)) == Pairs(tl)
  {
    if tl != [] {
      assert NormaliseAll(tl)[..|tl| - 1] == NormaliseAll(tl[..|tl| - 1]);
      NormalisePairs(tl[..|tl| - 1]);
    }
  }

  lemma {:induction false} NormaliseGas(tl: Timeline)
    ensures GasBurned(NormaliseAll(tl)) == GasBurned(tl)
  {
    hide NormalReason;
    if tl != [] {
      assert NormaliseAll(tl)[..|tl| - 1] == NormaliseAll(tl[..|tl| - 1]);
      NormaliseGas(tl[..|tl| - 1]);
    }
  }

  lemma {:induction false} NormaliseTrailing(tl: Timeline)
    ensures TrailingReverts(NormaliseAll(tl)) == TrailingReverts(tl)
  {
    hide NormalReason;
    if tl != [] {
      assert NormaliseAll(tl)[..|tl| - 1] == NormaliseAll(tl[..|tl| - 1]);
      NormaliseTrailing(tl[..|tl| - 1]);
    }
  }

  lemma NormaliseLastN(tl: Timeline, n: nat)
    ensures NormaliseAll(LastN(tl, n)) == LastN(NormaliseAll(tl), n)
  {
    hide Normalise;
  }

  lemma NormaliseVerdict(p: ReconcilePolicy, g: Guard, tl: Timeline)
    requires p.WellFormed()
    ensures Verdict(p, g, NormaliseAll(tl)) == Verdict(p, g, tl)
  {
    hide LastN, NormaliseAll, FastTrips, BurstTrips, SlowTrips, VolumeTrips, DrawdownTrips, Ratios, SumReal, Slippage,
      TotalRealized, TotalPredicted, GasBurned, TrailingReverts, Positive, Pairs;
    match g {
      case Burst => NormaliseBurst(p, tl);
      case Gas => NormaliseGasVerdict(p, tl);
      case _ => NormalisePairs(tl);
    }
  }

  lemma NormaliseBurst(p: ReconcilePolicy, tl: Timeline)
    requires p.WellFormed()
    ensures Verdict(p, Burst, NormaliseAll(tl)) == Verdict(p, Burst, tl)
  {
    hide NormaliseAll, BurstTrips, TrailingReverts;
    NormaliseTrailing(tl);
    if p.revertBurst.Some? {
      BurstByCount(p.revertBurst.value, tl);
      BurstByCount(p.revertBurst.value, NormaliseAll(tl));
    }
  }

  lemma NormaliseGasVerdict(p: ReconcilePolicy, tl: Timeline)
    requires p.WellFormed()
    ensures Verdict(p, Gas, NormaliseAll(tl)) == Verdict(p, Gas, tl)
  {
    hide NormaliseAll, LastN, GasBurned;
    if p.revertGas.Some? {
      NormaliseGas(LastN(tl, p.revertGas.value.window));
      NormaliseLastN(tl, p.revertGas.value.window);
    }
  }

  /** A history and its normalised form call for the same decision. */
  lemma NormaliseDecides(p: ReconcilePolicy, tl: Timeline)
    requires p.WellFormed()
    ensures Decide(p, NormaliseAll(tl)) == Decide(p, tl)
  {
    hide Trips, ReasonOf;
    NormaliseVerdict(p, Burst, tl);
    NormaliseVerdict(p, Gas, tl);
    NormaliseVerdict(p, Fast, tl);
    NormaliseVerdict(p, Drawdown, tl);
    NormaliseVerdict(p, Volume, tl);
    NormaliseVerdict(p, Slow, tl);
  }

  // ---------------------------------------------------------------------
  // The decision after a restart.

  /** Two histories that normalise alike decide alike, whatever happens later. */
  lemma SameNormalSameDecision(p: ReconcilePolicy, a: Timeline, b: Timeline, later: Timeline)
    requires p.WellFormed() && NormaliseAll(a) == NormaliseAll(b)
    ensures Decide(p, a + later) == Decide(p, b + later)
  {
    hide Decide, NormaliseAll;
    NormaliseAppend(a, later);
    NormaliseAppend(b, later);
    NormaliseDecides(p, a + later);
    NormaliseDecides(p, b + later);
  }

  lemma NormaliseTwice(tl: Timeline)
    ensures NormaliseAll(NormaliseAll(tl)) == NormaliseAll(tl)
  {
    forall i | 0 <= i < |tl|
      ensures Normalise(Normalise(tl[i])) == Normalise(tl[i])
    {
      NormaliseIdempotent(tl[i]);
    }
  }

  lemma DropIsLastN<T>(s: seq<T>, n: nat)
    requires n <= |s|
    ensures s[n..] == LastN(s, |s| - n)
  {
  }

  lemma SuffixSplits<T>(s: seq<T>, n: nat)
    ensures s == s[..|s| - |LastN(s, n)|] + LastN(s, n)
  {
  }

  lemma NormaliseFills(p: ReconcilePolicy, tl: Timeline)
    ensures FillsWindows(p, NormaliseAll(tl)) <==> FillsWindows(p, tl)
  {
    hide Positive, Pairs, Normalise;
    NormalisePairs(tl);
  }

  /**
   * From any life of the journal, a restart with no compaction before it
   * changes no decision, now or after any later events; with compactions it
   * changes none provided the recovered entries fill the policy's windows.
   */
  lemma {:induction false} RestartKeepsDecisions(es: seq<Event>, now: U64, p: ReconcilePolicy, later: Timeline)
    requires AllPossible(es) && p.WellFormed()
    requires OpenBytes(Run(es).disk, now).Ok?
    requires Run(es).dropped == 0 || FillsWindows(p, OpenBytes(Run(es).disk, now).value.entries)
    ensures Decide(p, OpenBytes(Run(es).disk, now).value.entries + later)
            == Decide(p, Run(es).issued + later)
  {
    hide Run, Decide, OpenBytes, NormaliseAll, FillsWindows;
    RecoversIssued(es, now);
    var issued := Run(es).issued;
    var recovered := OpenBytes(Run(es).disk, now).value.entries;
    NormaliseTwice(issued);
    if Run(es).dropped == 0 {
      SameNormalSameDecision(p, recovered, issued, later);
    } else {
      var n := |recovered|;
      DropIsLastN(NormaliseAll(issued), Run(es).dropped);
      var kept, dropped := LastN(issued, n), issued[..|issued| - |LastN(issued, n)|];
      NormaliseLastN(issued, n);
      NormaliseTwice(kept);
      SameNormalSameDecision(p, recovered, kept, later);
      NormaliseFills(p, kept);
      SuffixSplits(issued, n);
      DecisionSurvives(p, dropped, kept, later);
      assert dropped + kept + later == issued + later;
    }
  }

  /**
   * From any life of the journal, compactions included: if every guard is
   * immune on what a restart recovers, the restarted process halts exactly
   * when one that had forgotten nothing would, now or after any later events.
   */
  lemma {:induction false} RestartKeepsOutcome(b: Limits, es: seq<Event>, now: U64, p: ReconcilePolicy, later: Timeline)
    requires AllPossible(es) && b.Valid() && p.WellFormed()
    requires OpenBytes(Run(es).disk, now).Ok?
    requires AllFit(b, Run(es).issued) && AllFit(b, later)
    requires forall g :: Immune(b, p, g, OpenBytes(Run(es).disk, now).value.entries)
    ensures Decide(p, OpenBytes(Run(es).disk, now).value.entries + later).Halt?
            <==> Decide(p, Run(es).issued + later).Halt?
  {
    hide Run, Decide, OpenBytes, NormaliseAll, Immune, Fits, SameVerdict, NeverNotices;
    RecoversIssued(es, now);
    var issued, recovered := Run(es).issued, OpenBytes(Run(es).disk, now).value.entries;
    var oldest, newest := issued[..Run(es).dropped], issued[Run(es).dropped..];
    assert issued == oldest + newest;
    forall g ensures SameVerdict(p, g, oldest, recovered, later) {
      GuardSurvivesExactly(b, p, g, recovered);
      NoticesNothing(b, p, g, oldest, recovered, later);
    }
    SameVerdictsSameOutcome(p, oldest, recovered, later);
    assert NormaliseAll(newest) == recovered by { NormaliseDrop(issued, Run(es).dropped); }
    NormaliseTwice(newest);
    NormaliseAppend(oldest, newest);
    NormaliseAppend(oldest, recovered);
    SameNormalSameDecision(p, oldest + recovered, issued, later);
  }

  lemma NoticesNothing(
    b: Limits, p: ReconcilePolicy, g: Guard, dropped: Timeline, kept: Timeline, later: Timeline)
    requires NeverNotices(b, p, g, kept) && AllFit(b, dropped) && AllFit(b, later)
    ensures SameVerdict(p, g, dropped, kept, later)
  {
    hide SameVerdict, AllFit;
  }

  lemma NormaliseDrop(tl: Timeline, n: nat)
    requires n <= |tl|
    ensures NormaliseAll(tl[n..]) == NormaliseAll(tl)[n..]
  {
    hide Normalise;
  }

  // ---------------------------------------------------------------------
  // Supervision across restarts.

  lemma LastNEqualTails<T>(s: seq<T>, n: nat)
    requires n >= |s|
    ensures LastN(s, n) == s
  {
  }

  lemma SessionIsSuffix(w: World)
    requires Inv(w) && w.session.Some?
    ensures NormaliseAll(w.session.value.timeline)
            == LastN(NormaliseAll(w.issued), |w.session.value.timeline|)
  {
    hide Mirrors, CleanLog, OnDisk, NormaliseAll, LastN, AllEncodable, CheckHeader;
  }

  lemma WholeDecides(p: ReconcilePolicy, tl: Timeline, issued: Timeline)
    requires p.WellFormed() && |tl| >= |issued|
    requires NormaliseAll(tl) == LastN(NormaliseAll(issued), |tl|)
    ensures Decide(p, tl) == Decide(p, issued)
  {
    LastNEqualTails(NormaliseAll(issued), |tl|);
    hide Decide, NormaliseAll, LastN;
    NormaliseDecides(p, tl);
    NormaliseDecides(p, issued);
  }

  lemma SuffixDecides(p: ReconcilePolicy, tl: Timeline, issued: Timeline)
    requires p.WellFormed() && FillsWindows(p, tl)
    requires NormaliseAll(tl) == LastN(NormaliseAll(issued), |tl|)
    ensures Decide(p, tl) == Decide(p, issued)
  {
    hide Decide, NormaliseAll, FillsWindows, LastN;
    var kept := LastN(issued, |tl|);
    NormaliseLastN(issued, |tl|);
    NormaliseDecides(p, tl);
    NormaliseDecides(p, kept);
    NormaliseFills(p, tl);
    NormaliseFills(p, kept);
    SuffixSplits(issued, |tl|);
    var dropped := issued[..|issued| - |kept|];
    DecisionSurvives(p, dropped, kept, []);
    assert dropped + kept + [] == issued && kept + [] == kept;
  }

  /**
   * What a process holds decides like the full issued history, if it holds
   * all of it or enough to fill the policy's windows.
   */
  lemma SessionDecidesForIssued(w: World, p: ReconcilePolicy)
    requires Inv(w) && w.session.Some? && p.WellFormed()
    requires |w.session.value.timeline| >= |w.issued| || FillsWindows(p, w.session.value.timeline)
    ensures Decide(p, w.session.value.timeline) == Decide(p, w.issued)
  {
    hide Inv, Decide, NormaliseAll, FillsWindows, LastN;
    SessionIsSuffix(w);
    if |w.session.value.timeline| >= |w.issued| {
      WholeDecides(p, w.session.value.timeline, w.issued);
    } else {
      SuffixDecides(p, w.session.value.timeline, w.issued);
    }
  }

  /** The running process is told to continue on what it holds. */
  predicate ToldToContinue(w: World, p: ReconcilePolicy)
    requires p.WellFormed()
  {
    w.session.Some? ==> Decide(p, w.session.value.timeline) == Continue
  }

  /** What it holds is all that was issued, or at least fills the policy's windows. */
  predicate HoldsEnough(w: World, p: ReconcilePolicy) {
    w.session.Some? ==>
      |w.session.value.timeline| >= |w.issued| || FillsWindows(p, w.session.value.timeline)
  }

  predicate Supervised(w: World, p: ReconcilePolicy)
    requires p.WellFormed()
  {
    ToldToContinue(w, p) && HoldsEnough(w, p)
  }

  ghost predicate AlwaysSupervised(es: seq<Event>, p: ReconcilePolicy)
    requires AllPossible(es) && p.WellFormed()
  {
    forall i :: 0 <= i <= |es| ==> Supervised(Run(es[..i]), p)
  }

  lemma SupervisedNotHalted(w: World, p: ReconcilePolicy)
    requires Inv(w) && p.WellFormed() && Supervised(w, p) && w.session.Some?
    ensures !Halts(p, w.issued)
  {
    SessionDecidesForIssued(w, p);
    hide Inv;
    DecideHalts(p, w.issued);
  }

  /** Only an entry whose record is being written can add to what was issued, and only with a session. */
  lemma IssuedStep(w: World, e: Event)
    requires Possible(e) && SessionTyped(w)
    ensures Step(w, e).issued == w.issued
            || (w.session.Some? && exists entry :: Step(w, e).issued == w.issued + [entry])
  {
    hide Frame, Header, CompactedBody, OpenBytes, Encodable;
  }

  lemma NeverHaltedSnoc(p: ReconcilePolicy, tl: Timeline, entry: HistoryEntry)
    requires forall i :: 1 <= i < |tl| ==> !Halts(p, tl[..i])
    requires !Halts(p, tl)
    ensures NeverHalted(p, tl)
    ensures forall i :: 1 <= i < |tl + [entry]| ==> !Halts(p, (tl + [entry])[..i])
  {
    hide Halts;
    assert tl[..|tl|] == tl;
    forall i | 1 <= i < |tl + [entry]| ensures !Halts(p, (tl + [entry])[..i]) {
      assert (tl + [entry])[..i] == tl[..i];
    }
  }

  lemma {:induction false} SupervisedPrefixes(es: seq<Event>, p: ReconcilePolicy)
    requires AllPossible(es) && p.WellFormed() && AlwaysSupervised(es, p)
    ensures forall i :: 1 <= i < |Run(es).issued| ==> !Halts(p, Run(es).issued[..i])
  {
    hide Supervised, Halts, Step, Inv, Possible;
    if es != [] {
      var front, e := es[..|es| - 1], es[|es| - 1];
      var w := Run(front);
      assert AlwaysSupervised(front, p) by {
        forall i | 0 <= i <= |front| ensures Supervised(Run(front[..i]), p) {
          assert front[..i] == es[..i];
        }
      }
      assert front[..|front|] == front && Supervised(w, p);
      SupervisedPrefixes(front, p);
      RunKeepsInv(front);
      IssuedStep(w, e);
      if Run(es).issued != w.issued {
        var entry :| Run(es).issued == w.issued + [entry];
        SupervisedNotHalted(w, p);
        NeverHaltedSnoc(p, w.issued, entry);
      }
    }
  }

  /**
   * Supervision survives restarts: if after every event the running process
   * was told to continue, and held all that was issued or enough to fill the
   * policy's windows, then the history issued over all processes was never
   * halted at any point. `ContinuingIsNotEnough` shows the second condition
   * is needed.
   */
  lemma {:induction false} SupervisedAcrossRestarts(es: seq<Event>, p: ReconcilePolicy)
    requires AllPossible(es) && p.WellFormed() && AlwaysSupervised(es, p)
    requires Run(es).session.Some?
    ensures NeverHalted(p, Run(es).issued)
  {
    hide Supervised, Halts, Inv, Run;
    SupervisedPrefixes(es, p);
    RunKeepsInv(es);
    assert es[..|es|] == es && Supervised(Run(es), p);
    SupervisedNotHalted(Run(es), p);
    NeverHaltedSnoc(p, Run(es).issued, ConfirmedPair(0, 0));
  }

  /** Supervision has a start: a newly created journal is supervised under every policy. */
  lemma NewJournalIsSupervised(p: ReconcilePolicy, maxRetained: nat, now: U64)
    requires p.WellFormed()
    ensures var es := [Open(maxRetained, now)];
            AllPossible(es) && AlwaysSupervised(es, p) && Run(es).session.Some?
  {
    hide Decide, Header, FillsWindows;
    var es := [Open(maxRetained, now)];
    EmptyContinues(p);
    assert es[..0] == [] && es[..1] == es;
    assert Run([]) == Initial;
    assert Run(es) == Step(Initial, Open(maxRetained, now));
    forall i | 0 <= i <= |es| ensures Supervised(Run(es[..i]), p) {
      assert i == 0 || i == 1;
    }
  }

  /**
   * The journal's error is one-sided: over every life, compactions and crashes
   * included, a process that is told to halt would be told so on everything
   * that was issued.
   */
  lemma {:induction false} NeverFalselyHalted(es: seq<Event>, p: ReconcilePolicy)
    requires AllPossible(es) && p.WellFormed() && Run(es).session.Some?
    requires Decide(p, Run(es).session.value.timeline).Halt?
    ensures Decide(p, Run(es).issued).Halt?
  {
    hide Run, Decide, NormaliseAll, LastN, Inv, Halts;
    RunKeepsInv(es);
    SessionIsSuffix(Run(es));
    var issued, tl := Run(es).issued, Run(es).session.value.timeline;
    var kept := LastN(issued, |tl|);
    NormaliseLastN(issued, |tl|);
    NormaliseDecides(p, tl);
    NormaliseDecides(p, kept);
    SuffixSplits(issued, |tl|);
    DecideHalts(p, kept);
    SuffixHalts(p, issued[..|issued| - |kept|], kept);
    DecideHalts(p, issued);
  }

  lemma {:induction false} IssuedPrefix(es: seq<Event>, i: nat)
    requires AllPossible(es) && i <= |es|
    ensures Run(es[..i]).issued <= Run(es).issued
    decreases |es|
  {
    hide Step, Possible;
    if i == |es| {
      assert es[..i] == es;
    } else {
      var front := es[..|es| - 1];
      IssuedPrefix(front, i);
      assert front[..i] == es[..i];
      IssuedStep(Run(front), es[|es| - 1]);
    }
  }

  lemma PrefixNotHalted(p: ReconcilePolicy, tl: Timeline, x: Timeline)
    requires p.WellFormed() && NeverHalted(p, tl) && x <= tl
    ensures Decide(p, x) == Continue
  {
    hide Decide, Halts;
    EmptyContinues(p);
    DecideHalts(p, x);
    assert x == tl[..|x|];
  }

  lemma UnhaltedContinues(es: seq<Event>, p: ReconcilePolicy, i: nat)
    requires AllPossible(es) && p.WellFormed() && i <= |es| && NeverHalted(p, Run(es).issued)
    ensures ToldToContinue(Run(es[..i]), p)
  {
    hide Run, Decide, NeverHalted;
    IssuedPrefix(es, i);
    PrefixNotHalted(p, Run(es).issued, Run(es[..i]).issued);
    var w := Run(es[..i]);
    if w.session.Some? {
      if Decide(p, w.session.value.timeline).Halt? {
        NeverFalselyHalted(es[..i], p);
      }
    }
  }

  /**
   * Supervision is exact: as long as every process holds all that was issued
   * or enough to fill the windows, each is told to continue after every event
   * exactly when the history issued over all of them was never halted.
   */
  lemma {:induction false} SupervisedExactly(es: seq<Event>, p: ReconcilePolicy)
    requires AllPossible(es) && p.WellFormed() && Run(es).session.Some?
    requires forall i :: 0 <= i <= |es| ==> HoldsEnough(Run(es[..i]), p)
    ensures (forall i :: 0 <= i <= |es| ==> ToldToContinue(Run(es[..i]), p))
            <==> NeverHalted(p, Run(es).issued)
  {
    hide Run, HoldsEnough, ToldToContinue, NeverHalted;
    if NeverHalted(p, Run(es).issued) {
      forall i | 0 <= i <= |es| ensures ToldToContinue(Run(es[..i]), p) {
        UnhaltedContinues(es, p, i);
      }
    }
    if forall i :: 0 <= i <= |es| ==> ToldToContinue(Run(es[..i]), p) {
      assert AlwaysSupervised(es, p);
      SupervisedAcrossRestarts(es, p);
    }
  }

  /** Every bound on unhalted runs holds over all processes together, each for its own guard. */
  lemma LossBoundAcrossRestarts(es: seq<Event>, p: ReconcilePolicy)
    requires AllPossible(es) && p.WellFormed() && AlwaysSupervised(es, p)
    requires Run(es).session.Some?
    ensures var tl := Run(es).issued;
            && (p.revertBurst.Some? ==> RevertsCapped(p.revertBurst.value, tl))
            && (p.revertGas.Some? ==> GasCapped(p.revertGas.value, tl))
            && FastKeptUp(p.fast, Eligible(tl))
            && (p.drawdown.Some? ==> SlippageCapped(p.drawdown.value, Pairs(tl)))
            && (p.volumeWeighted.Some? ==> VolumeShareKept(p.volumeWeighted.value, Eligible(tl)))
            && SlowMeanKept(p.slow, Eligible(tl))
  {
    hide Run, AlwaysSupervised, NeverHalted, RevertsCapped, GasCapped, FastKeptUp, SlippageCapped,
      VolumeShareKept, SlowMeanKept;
    var tl := Run(es).issued;
    SupervisedAcrossRestarts(es, p);
    BoundedFastBleed(p, tl);
    BoundedSlowBleed(p, tl);
    if p.revertBurst.Some? { BoundedReverts(p, tl); }
    if p.revertGas.Some? { BoundedRevertGas(p, tl); }
    if p.drawdown.Some? { BoundedSlippage(p, tl); }
    if p.volumeWeighted.Some? { BoundedVolumeBleed(p, tl); }
  }

  // ---------------------------------------------------------------------
  // What compaction can cost, at lives of the journal.

  const FAST := FastGuardConfig(0.1, 5)
  const DUAL := Dual(FAST, 0.7, 2)
  const LOSS := ConfirmedPair(100, 60)

  lemma LossesEligible()
    ensures Eligible([LOSS]) == [Pair(100, 60)]
    ensures Eligible([LOSS, LOSS]) == [Pair(100, 60), Pair(100, 60)]
  {
    hide Eligible;
    EligibleOfOne(100, 60);
    EligibleAppend([LOSS], [LOSS]);
    assert [LOSS] + [LOSS] == [LOSS, LOSS];
  }

  lemma TwoLossesTripSlow()
    ensures SlowTrips(SlowGuardConfig(0.7, 2), [Pair(100, 60), Pair(100, 60)])
  {
    hide SumReal;
    var q := Pair(100, 60);
    assert Ratios([q, q]) == [0.6] + [0.6];
    SumRealAppend([0.6], [0.6]);
    assert SumReal([0.6]) == 0.6 by { SumOfOne(0.6); }
  }

  lemma SumOfOne(x: real)
    ensures SumReal([x]) == x
  {
    assert [x][..0] == [];
  }

  /** One loss of two fifths is no reason to halt; two are. */
  lemma LossDecisions()
    ensures Decide(DUAL, []) == Decide(DUAL, [LOSS]) == Continue
    ensures Decide(DUAL, [LOSS, LOSS]).Halt? && Halts(DUAL, [LOSS, LOSS])
  {
    hide Decide, Eligible, Dual, Halts;
    EmptyContinues(DUAL);
    LossesEligible();
    TwoLossesTripSlow();
    DualGuards(FAST, 0.7, 2, [LOSS]);
    DualGuards(FAST, 0.7, 2, [LOSS, LOSS]);
    DecideHalts(DUAL, [LOSS]);
    DecideHalts(DUAL, [LOSS, LOSS]);
  }

  /** One loss is dropped by compaction, the other kept: the new process continues where the old one halts. */
  lemma CompactionForgets(now: U64)
    ensures var es := CompactedLife([LOSS], [LOSS], now);
            && AllPossible(es) && Run(es).session.Some?
            && Decide(DUAL, Run(es).session.value.timeline) == Continue
            && Decide(DUAL, Run(es).issued).Halt?
  {
    hide Decide, Run, CompactedLife, Halts;
    LossDecisions();
    LifeRecovers([LOSS], [LOSS], now);
    assert NormaliseAll([LOSS]) == [LOSS];
    assert [LOSS] + [LOSS] == [LOSS, LOSS];
  }

  /** No process has seen more than one loss. */
  predicate AtMostOneLoss(w: World) {
    w.session.Some? ==> w.session.value.timeline == [] || w.session.value.timeline == [LOSS]
  }

  lemma OneLossContinues(w: World)
    requires AtMostOneLoss(w)
    ensures ToldToContinue(w, DUAL)
  {
    hide Decide;
    LossDecisions();
  }

  /** The first process writes one loss, compacts it away and closes. */
  lemma FirstProcess(now: U64)
    ensures var o, wr := Open(0, now), Write(LOSS, now);
            && AllPossible([o, wr, Compact(now), Close])
            && AtMostOneLoss(Run([o])) && AtMostOneLoss(Run([o, wr]))
            && AtMostOneLoss(Run([o, wr, Compact(now)])) && AtMostOneLoss(Run([o, wr, Compact(now), Close]))
  {
    hide Run, Header, Frame, CompactedBody;
    var o, wr := Open(0, now), Write(LOSS, now);
    FirstOpen(0, now);
    WritesOne([o], LOSS, now);
    assert [o] + [wr] == [o, wr] && [] + [LOSS] == [LOSS];
    RunSnoc([o, wr], Compact(now));
    assert [o, wr] + [Compact(now)] == [o, wr, Compact(now)];
    RunSnoc([o, wr, Compact(now)], Close);
    assert [o, wr, Compact(now)] + [Close] == [o, wr, Compact(now), Close];
  }

  lemma TwoProcesses(now: U64)
    ensures CompactedLife([LOSS], [], now) == [Open(0, now), Write(LOSS, now), Compact(now), Close, Open(0, now)]
    ensures Writes([LOSS], now) == [Write(LOSS, now)]
  {
    assert [LOSS] + [] == [LOSS];
  }

  /** So does the second, but that it does not compact. */
  lemma SecondProcess(now: U64)
    ensures var o, wr := Open(0, now), Write(LOSS, now);
            && AllPossible([o, wr, Compact(now), Close, o, wr])
            && AtMostOneLoss(Run([o, wr, Compact(now), Close, o]))
            && AtMostOneLoss(Run([o, wr, Compact(now), Close, o, wr]))
  {
    hide Run, CompactedLife;
    TwoProcesses(now);
    LifeRecovers([LOSS], [], now);
    assert NormaliseAll([]) == [];
    var o, wr := Open(0, now), Write(LOSS, now);
    WritesOne([o, wr, Compact(now), Close, o], LOSS, now);
    assert [o, wr, Compact(now), Close, o] + [wr] == [o, wr, Compact(now), Close, o, wr];
    assert [] + [LOSS] == [LOSS];
  }

  lemma NeverTwoLosses(now: U64, i: nat)
    requires i <= 6
    ensures var o, wr := Open(0, now), Write(LOSS, now);
            var es := [o, wr, Compact(now), Close, o, wr];
            AllPossible(es[..i]) && AtMostOneLoss(Run(es[..i]))
  {
    hide Run, AtMostOneLoss, AllPossible;
    FirstProcess(now);
    SecondProcess(now);
    var o, wr := Open(0, now), Write(LOSS, now);
    var es := [o, wr, Compact(now), Close, o, wr];
    PrefixesPossible(es, i);
    if i == 0 {
      NothingRun();
      assert es[..0] == [];
    } else if i == 1 {
      assert es[..1] == [o];
    } else if i == 2 {
      assert es[..2] == [o, wr];
    } else if i == 3 {
      assert es[..3] == [o, wr, Compact(now)];
    } else if i == 4 {
      assert es[..4] == [o, wr, Compact(now), Close];
    } else if i == 5 {
      assert es[..5] == [o, wr, Compact(now), Close, o];
    } else {
      assert es[..6] == es;
    }
  }

  lemma NothingRun()
    ensures AtMostOneLoss(Run([]))
  {
  }

  lemma PrefixesPossible(es: seq<Event>, i: nat)
    requires AllPossible(es) && i <= |es|
    ensures AllPossible(es[..i])
  {
  }

  /**
   * Being told to continue after every event is not enough: two processes that
   * each saw one loss continue, and together they have passed a halt.
   */
  lemma ContinuingIsNotEnough(now: U64)
    ensures var es := CompactedLife([LOSS], [], now) + Writes([LOSS], now);
            && AllPossible(es)
            && (forall i :: 0 <= i <= |es| ==> ToldToContinue(Run(es[..i]), DUAL))
            && Halts(DUAL, Run(es).issued)
  {
    hide Decide, Run, Halts, ToldToContinue, CompactedLife, AtMostOneLoss;
    LossDecisions();
    LifeContinues([LOSS], [], [LOSS], now);
    assert [LOSS] + [] + [LOSS] == [LOSS, LOSS];
    var es := CompactedLife([LOSS], [], now) + Writes([LOSS], now);
    TwoProcesses(now);
    assert es == [Open(0, now), Write(LOSS, now), Compact(now), Close, Open(0, now), Write(LOSS, now)];
    forall i | 0 <= i <= |es| ensures ToldToContinue(Run(es[..i]), DUAL) {
      NeverTwoLosses(now, i);
      OneLossContinues(Run(es[..i]));
    }
  }

  // ---------------------------------------------------------------------
  // Guard by guard, over all such lives.

  /** After the life that drops `dropped`, the guard trips for the new process as it does on all that was issued. */
  predicate AgreesAfterLife(
    p: ReconcilePolicy, g: Guard, dropped: Timeline, kept: Timeline, later: Timeline, now: U64)
    requires AllEncodable(dropped) && AllEncodable(kept) && AllEncodable(later)
  {
    LifeContinues(dropped, kept, later, now);
    var w := Run(CompactedLife(dropped, kept, now) + Writes(later, now));
    Trips(p, g, w.session.value.timeline) <==> Trips(p, g, w.issued)
  }

  lemma NormaliseTrips(p: ReconcilePolicy, g: Guard, tl: Timeline)
    requires p.WellFormed()
    ensures Trips(p, g, NormaliseAll(tl)) == Trips(p, g, tl)
  {
    hide Trips, NormaliseAll, ReasonOf;
    NormaliseVerdict(p, g, tl);
  }

  lemma LifeIsLoss(p: ReconcilePolicy, g: Guard, dropped: Timeline, kept: Timeline, later: Timeline, now: U64)
    requires p.WellFormed() && AllEncodable(dropped) && AllEncodable(kept) && AllEncodable(later)
    ensures AgreesAfterLife(p, g, dropped, kept, later, now) <==> SameVerdict(p, g, dropped, kept, later)
  {
    hide Trips, NormaliseAll, Run, CompactedLife, Encodable;
    LifeContinues(dropped, kept, later, now);
    NormaliseAppend(NormaliseAll(kept), later);
    NormaliseAppend(kept, later);
    NormaliseTwice(kept);
    NormaliseTrips(p, g, NormaliseAll(kept) + later);
    NormaliseTrips(p, g, kept + later);
  }

  lemma FitIsEncodable(b: Limits, tl: Timeline)
    requires AllFit(b, tl)
    ensures AllEncodable(tl)
  {
    hide Encodable;
  }

  /**
   * Over all lives that drop and later write entries within the limits, the
   * guard agrees with the full history exactly when it is immune on what is kept.
   */
  lemma LivesAgreeExactly(b: Limits, p: ReconcilePolicy, g: Guard, kept: Timeline, now: U64)
    requires b.Valid() && p.WellFormed() && AllEncodable(kept)
    ensures (forall dropped, later | AllEncodable(dropped) && AllEncodable(later)
               && AllFit(b, dropped) && AllFit(b, later) ::
               AgreesAfterLife(p, g, dropped, kept, later, now))
            <==> Immune(b, p, g, kept)
  {
    hide AgreesAfterLife, SameVerdict, AllFit, AllEncodable, Immune;
    GuardSurvivesExactly(b, p, g, kept);
    forall dropped, later | AllFit(b, dropped) && AllFit(b, later)
      ensures AllEncodable(dropped) && AllEncodable(later)
      ensures AgreesAfterLife(p, g, dropped, kept, later, now) <==> SameVerdict(p, g, dropped, kept, later)
    {
      FitIsEncodable(b, dropped);
      FitIsEncodable(b, later);
      LifeIsLoss(p, g, dropped, kept, later, now);
    }
  }

  /** After the life that drops `dropped`, the new process halts as one that knew all that was issued would. */
  predicate OutcomeAfterLife(p: ReconcilePolicy, dropped: Timeline, kept: Timeline, later: Timeline, now: U64)
    requires p.WellFormed() && AllEncodable(dropped) && AllEncodable(kept) && AllEncodable(later)
  {
    LifeContinues(dropped, kept, later, now);
    var w := Run(CompactedLife(dropped, kept, now) + Writes(later, now));
    Decide(p, w.session.value.timeline).Halt? <==> Decide(p, w.issued).Halt?
  }

  lemma LifeOutcome(p: ReconcilePolicy, dropped: Timeline, kept: Timeline, later: Timeline, now: U64)
    requires p.WellFormed() && AllEncodable(dropped) && AllEncodable(kept) && AllEncodable(later)
    ensures OutcomeAfterLife(p, dropped, kept, later, now) <==> SameOutcome(p, dropped, kept, later)
  {
    hide Decide, NormaliseAll, Run, CompactedLife, Encodable;
    LifeContinues(dropped, kept, later, now);
    NormaliseTwice(kept);
    SameNormalSameDecision(p, NormaliseAll(kept), kept, later);
  }

  /**
   * For a process that has not halted on what compaction keeps: over all lives
   * that drop and later write entries within the limits, it halts exactly when
   * the full history would if and only if every guard is immune on what it keeps.
   */
  lemma {:induction false} OutcomesAgreeExactly(b: Limits, p: ReconcilePolicy, kept: Timeline, now: U64)
    requires b.Valid() && p.WellFormed() && AllEncodable(kept) && Decide(p, kept) == Continue
    ensures (forall dropped, later | AllEncodable(dropped) && AllEncodable(later)
               && AllFit(b, dropped) && AllFit(b, later) ::
               OutcomeAfterLife(p, dropped, kept, later, now))
            <==> forall g :: Immune(b, p, g, kept)
  {
    hide OutcomeAfterLife, SameOutcome, AllFit, AllEncodable, Decide, Immune;
    forall dropped, later | AllFit(b, dropped) && AllFit(b, later)
      ensures AllEncodable(dropped) && AllEncodable(later)
      ensures OutcomeAfterLife(p, dropped, kept, later, now) <==> SameOutcome(p, dropped, kept, later)
    {
      FitIsEncodable(b, dropped);
      FitIsEncodable(b, later);
      LifeOutcome(p, dropped, kept, later, now);
    }
    OutcomeSurvivesExactly(b, p, kept);
  }

  /** The method form: open the journal, evaluate as a restarted process does, and close it. */
  method OpenAndEvaluate(dir: Directory, maxRetainedEntries: nat, now: U64, p: ReconcilePolicy)
    returns (r: Journal.Result<HaltDecision>)
    requires p.WellFormed()
    modifies dir, dir.journal
    ensures dir.locked == old(dir.locked)
    ensures old(dir.locked) ==> r == Journal.Err(AlreadyLocked)
    ensures !old(dir.locked) ==>
              var before := if old(dir.journal) == null then [] else old(dir.journal.data);
              match OpenBytes(before, now)
              case Err(e) => r == Journal.Err(e)
              case Ok(o) => r == Journal.Ok(Decide(p, o.entries)) && dir.journal != null && dir.journal.data == o.data
  {
    var j := OpenOrCreate(dir, maxRetainedEntries, now);
    match j {
      case Err(e) => r := Journal.Err(e);
      case Ok(journal) =>
        var d := Evaluate(p, journal.inner);
        r := Journal.Ok(d);
        journal.Close();
    }
  }
}
