/** Replaying trades, prefix by prefix. */
module Replay {
  import opened History
  import opened Policy
  import opened Tightening

  /** The policy halts right after event `i`. */
  predicate HaltsAfter(p: ReconcilePolicy, tl: Timeline, i: nat)
    requires p.WellFormed() && i < |tl|
  {
    Decide(p, tl[..i + 1]).Halt?
  }

  lemma HaltsAfterPrefix(p: ReconcilePolicy, tl: Timeline, n: nat, i: nat)
    requires p.WellFormed() && i < n <= |tl|
    ensures HaltsAfter(p, tl[..n], i) == HaltsAfter(p, tl, i)
  {
    assert tl[..n][..i + 1] == tl[..i + 1];
  }

  /** `o` is the first event after which the policy halts. */
  predicate IsFirstHalt(p: ReconcilePolicy, tl: Timeline, o: Option<nat>)
    requires p.WellFormed()
  {
    match o
    case None => forall i :: 0 <= i < |tl| ==> !HaltsAfter(p, tl, i)
    case Some(k) => k < |tl| && HaltsAfter(p, tl, k) && forall i :: 0 <= i < k ==> !HaltsAfter(p, tl, i)
  }

  function FirstHaltFrom(p: ReconcilePolicy, tl: Timeline, i: nat): Option<nat>
    requires p.WellFormed() && i <= |tl|
    decreases |tl| - i
  {
    if i == |tl| then None
    else if HaltsAfter(p, tl, i) then Some(i)
    else FirstHaltFrom(p, tl, i + 1)
  }

  /** The first event after which the policy halts, if any. */
  function FirstHalt(p: ReconcilePolicy, tl: Timeline): Option<nat>
    requires p.WellFormed()
  {
    FirstHaltFrom(p, tl, 0)
  }

  lemma {:induction false} FirstHaltFromIsFirst(p: ReconcilePolicy, tl: Timeline, i: nat)
    requires p.WellFormed() && i <= |tl|
    requires forall k :: 0 <= k < i ==> !HaltsAfter(p, tl, k)
    ensures IsFirstHalt(p, tl, FirstHaltFrom(p, tl, i))
    decreases |tl| - i
  {
    hide HaltsAfter;
    if i < |tl| && !HaltsAfter(p, tl, i) {
      FirstHaltFromIsFirst(p, tl, i + 1);
    }
  }

  /** `IsFirstHalt` holds of `FirstHalt` and of nothing else. */
  lemma FirstHaltIsFirst(p: ReconcilePolicy, tl: Timeline, o: Option<nat>)
    requires p.WellFormed()
    ensures IsFirstHalt(p, tl, o) <==> o == FirstHalt(p, tl)
  {
    FirstHaltFromIsFirst(p, tl, 0);
    hide HaltsAfter;
  }

  /** Every event after which the policy halts. */
  function HaltSet(p: ReconcilePolicy, tl: Timeline): set<nat>
    requires p.WellFormed()
  {
    set i: nat | i < |tl| && HaltsAfter(p, tl, i)
  }

  /** What a halt at this event is credited with: the shortfall of a losing confirmed pair. */
  function Shortfall(e: HistoryEntry): (loss: nat) {
    match e
    case ConfirmedPair(p, r) => if p > r then p - r else 0
    case RevertedTx(_) => 0
  }

  function Prevented(p: ReconcilePolicy, tl: Timeline): nat
    requires p.WellFormed()
  {
    if tl == [] then 0
    else Prevented(p, tl[..|tl| - 1])
         + if Decide(p, tl).Halt? then Shortfall(tl[|tl| - 1]) else 0
  }

  // ---------------------------------------------------------------------
  // One more event.

  lemma HaltsAfterSnoc(p: ReconcilePolicy, tl: Timeline, e: HistoryEntry)
    requires p.WellFormed()
    ensures forall i :: 0 <= i < |tl| ==> HaltsAfter(p, tl + [e], i) == HaltsAfter(p, tl, i)
    ensures HaltsAfter(p, tl + [e], |tl|) == Decide(p, tl + [e]).Halt?
  {
    hide Decide;
    var long := tl + [e];
    assert long[..|tl|] == tl && long[..|tl| + 1] == long;
    forall i | 0 <= i < |tl| ensures HaltsAfter(p, long, i) == HaltsAfter(p, tl, i) {
      HaltsAfterPrefix(p, long, |tl|, i);
    }
  }

  lemma HaltSetSnoc(p: ReconcilePolicy, tl: Timeline, e: HistoryEntry)
    requires p.WellFormed()
    ensures |HaltSet(p, tl + [e])| == |HaltSet(p, tl)| + if Decide(p, tl + [e]).Halt? then 1 else 0
  {
    HaltsAfterSnoc(p, tl, e);
    hide Decide, HaltsAfter;
    var before, after := HaltSet(p, tl), HaltSet(p, tl + [e]);
    if Decide(p, tl + [e]).Halt? {
      assert after == before + {|tl|};
    } else {
      assert after == before;
    }
  }

  lemma FirstHaltSnoc(p: ReconcilePolicy, tl: Timeline, e: HistoryEntry, o: Option<nat>)
    requires p.WellFormed() && IsFirstHalt(p, tl, o)
    ensures IsFirstHalt(p, tl + [e],
              if o.None? && Decide(p, tl + [e]).Halt? then Some(|tl|) else o)
  {
    hide Decide, HaltsAfter;
    HaltsAfterSnoc(p, tl, e);
    var long := tl + [e];
    if o.None? {
      assert forall i :: 0 <= i < |tl| ==> !HaltsAfter(p, long, i);
    } else {
      assert forall i :: 0 <= i < o.value ==> !HaltsAfter(p, long, i);
    }
  }

  lemma PreventedSnoc(p: ReconcilePolicy, tl: Timeline, e: HistoryEntry)
    requires p.WellFormed()
    ensures Prevented(p, tl + [e])
            == Prevented(p, tl) + if Decide(p, tl + [e]).Halt? then Shortfall(e) else 0
  {
    hide Decide;
    assert (tl + [e])[..|tl + [e]| - 1] == tl;
  }

  // ---------------------------------------------------------------------
  // A tighter policy over a whole replay.

  lemma TighterHaltsAfter(a: ReconcilePolicy, b: ReconcilePolicy, tl: Timeline, i: nat)
    requires a.WellFormed() && b.WellFormed() && Tighter(a, b) && i < |tl|
    requires HaltsAfter(a, tl, i)
    ensures HaltsAfter(b, tl, i)
  {
    hide Tighter, Decide;
    DecideHalts(a, tl[..i + 1]);
    DecideHalts(b, tl[..i + 1]);
    TighterHalts(a, b, tl[..i + 1]);
  }

  /** `x` is no later than `y`, where None is never. */
  predicate NoLater(x: Option<nat>, y: Option<nat>) {
    y.Some? ==> x.Some? && x.value <= y.value
  }

  /** Tightening never delays the first halt. */
  lemma TighterHaltsNoLater(a: ReconcilePolicy, b: ReconcilePolicy, tl: Timeline, x: Option<nat>, y: Option<nat>)
    requires a.WellFormed() && b.WellFormed() && Tighter(a, b)
    requires IsFirstHalt(a, tl, x) && IsFirstHalt(b, tl, y)
    ensures NoLater(y, x)
  {
    hide Tighter, HaltsAfter;
    if x.Some? {
      TighterHaltsAfter(a, b, tl, x.value);
    }
  }

  lemma SubsetSmaller<T>(s: set<T>, t: set<T>)
    requires s <= t
    ensures |s| <= |t|
  {
    assert t == s + (t - s);
  }

  lemma {:induction false} TighterPreventsMore(a: ReconcilePolicy, b: ReconcilePolicy, tl: Timeline)
    requires a.WellFormed() && b.WellFormed() && Tighter(a, b)
    ensures Prevented(a, tl) <= Prevented(b, tl)
  {
    hide Tighter, Decide;
    if tl != [] {
      TighterPreventsMore(a, b, tl[..|tl| - 1]);
      assert tl[..|tl|] == tl;
      if HaltsAfter(a, tl, |tl| - 1) {
        TighterHaltsAfter(a, b, tl, |tl| - 1);
      }
    }
  }

  /** Tightening never halts less often, nor prevents less drawdown, over any trades. */
  lemma TighterHaltsMore(a: ReconcilePolicy, b: ReconcilePolicy, tl: Timeline)
    requires a.WellFormed() && b.WellFormed() && Tighter(a, b)
    ensures |HaltSet(a, tl)| <= |HaltSet(b, tl)|
    ensures Prevented(a, tl) <= Prevented(b, tl)
  {
    hide Tighter, HaltsAfter;
    forall i: nat | i < |tl| && HaltsAfter(a, tl, i) ensures HaltsAfter(b, tl, i) {
      TighterHaltsAfter(a, b, tl, i);
    }
    SubsetSmaller(HaltSet(a, tl), HaltSet(b, tl));
    TighterPreventsMore(a, b, tl);
  }
}
