/** The append-only history of confirmed pairs and on-chain reverts. */
module History {
  import opened Bytes
  import Utf8

  datatype Option<+T> = None | Some(value: T)

  /** Predicted and realized profit of one confirmed transaction. */
  datatype Pair = Pair(predicted: int, realized: int)

  datatype RevertEvent = RevertEvent(
    txHash: seq<Byte>,
    blockNumber: nat,
    reason: Option<Utf8.Text>,
    gasUsed: nat,
    effectiveGasPrice: nat)

  datatype HistoryEntry =
    | ConfirmedPair(predicted: int, realized: int)
    | RevertedTx(event: RevertEvent)

  type Timeline = seq<HistoryEntry>

  // ---------------------------------------------------------------------
  // What a timeline determines.

  function Pairs(tl: Timeline): seq<Pair> {
    if tl == [] then []
    else Pairs(tl[..|tl| - 1])
         + match tl[|tl| - 1] {
             case ConfirmedPair(p, r) => [Pair(p, r)]
             case RevertedTx(_) => []
           }
  }

  function Reverts(tl: Timeline): seq<RevertEvent> {
    if tl == [] then []
    else Reverts(tl[..|tl| - 1])
         + match tl[|tl| - 1] {
             case ConfirmedPair(_, _) => []
             case RevertedTx(e) => [e]
           }
  }

  /** The pairs the ratio guards look at: those with a positive prediction. */
  function Positive(ps: seq<Pair>): (qs: seq<Pair>)
    ensures forall q :: q in qs ==> q.predicted > 0
  {
    if ps == [] then []
    else
      var last := ps[|ps| - 1];
      Positive(ps[..|ps| - 1]) + if last.predicted > 0 then [last] else []
  }

  /** The last `n` elements, or all of them when there are fewer. */
  function LastN<T>(s: seq<T>, n: nat): (t: seq<T>)
    ensures |t| == if |s| <= n then |s| else n
  {
    if |s| <= n then s else s[|s| - n..]
  }

  /** Fees burned by the reverts among `tl`. */
  function GasBurned(tl: Timeline): nat {
    if tl == [] then 0
    else GasBurned(tl[..|tl| - 1])
         + match tl[|tl| - 1] {
             case ConfirmedPair(_, _) => 0
             case RevertedTx(e) => e.gasUsed * e.effectiveGasPrice
           }
  }

  function Ratio(q: Pair): real
    requires q.predicted > 0
  {
    q.realized as real / q.predicted as real
  }

  function Ratios(qs: seq<Pair>): (rs: seq<real>)
    requires forall q :: q in qs ==> q.predicted > 0
    ensures |rs| == |qs|
    ensures forall i :: 0 <= i < |qs| ==> rs[i] == Ratio(qs[i])
  {
    seq(|qs|, i requires 0 <= i < |qs| => Ratio(qs[i]))
  }

  // ---------------------------------------------------------------------
  // Where each entry of a timeline is found again.

  /** How many of the first `n` entries are reverts. */
  function RevertsBefore(tl: Timeline, n: nat): nat
    requires n <= |tl|
  {
    |set k | 0 <= k < n && tl[k].RevertedTx?|
  }

  lemma {:induction false} AtMostRange(ks: set<int>, n: nat)
    requires forall k :: k in ks ==> 0 <= k < n
    ensures |ks| <= n
  {
    if n == 0 {
      assert forall k :: k !in ks;
    } else {
      AtMostRange(ks - {n - 1}, n - 1);
      assert ks <= (ks - {n - 1}) + {n - 1};
    }
  }

  lemma RevertsAtMost(tl: Timeline, n: nat)
    requires n <= |tl|
    ensures RevertsBefore(tl, n) <= n
  {
    AtMostRange((set k | 0 <= k < n && tl[k].RevertedTx?), n);
  }

  lemma RevertsBeforeStep(tl: Timeline, n: nat)
    requires 0 < n <= |tl|
    ensures RevertsBefore(tl, n) == RevertsBefore(tl, n - 1) + if tl[n - 1].RevertedTx? then 1 else 0
  {
    var before, after := set k | 0 <= k < n - 1 && tl[k].RevertedTx?, set k | 0 <= k < n && tl[k].RevertedTx?;
    if tl[n - 1].RevertedTx? {
      assert after == before + {n - 1};
    } else {
      assert after == before;
    }
  }

  lemma {:induction false} CountsAgree(tl: Timeline, n: nat)
    requires n <= |tl|
    ensures |Reverts(tl[..n])| == RevertsBefore(tl, n)
    ensures |Pairs(tl[..n])| == n - RevertsBefore(tl, n)
  {
    if n == 0 {
      RevertsAtMost(tl, n);
    } else {
      CountsAgree(tl, n - 1);
      RevertsBeforeStep(tl, n);
      hide RevertsBefore;
      assert tl[..n][..n - 1] == tl[..n - 1];
    }
  }

  lemma SplitAt<T>(s: seq<T>, k: nat)
    requires k < |s|
    ensures s == s[..k] + [s[k]] + s[k + 1..] && s[..|s|] == s
  {
  }

  lemma SingleByKind(e: HistoryEntry)
    ensures Reverts([e]) == match e case RevertedTx(ev) => [ev] case ConfirmedPair(_, _) => []
    ensures Pairs([e]) == match e case RevertedTx(_) => [] case ConfirmedPair(p, r) => [Pair(p, r)]
  {
    assert [e][..0] == [];
  }

  /**
   * The reverts of a timeline are its reverted entries' events and its pairs
   * the profits of the others, each in timeline order.
   */
  lemma SplitByKind(tl: Timeline, k: nat)
    requires k < |tl|
    ensures |Reverts(tl)| == RevertsBefore(tl, |tl|) && |Pairs(tl)| == |tl| - RevertsBefore(tl, |tl|)
    ensures var i := RevertsBefore(tl, k);
            match tl[k]
            case RevertedTx(e) => i < |Reverts(tl)| && Reverts(tl)[i] == e
            case ConfirmedPair(p, r) => 0 <= k - i < |Pairs(tl)| && Pairs(tl)[k - i] == Pair(p, r)
  {
    CountsAgree(tl, k);
    CountsAgree(tl, |tl|);
    hide RevertsBefore;
    var front, rest := tl[..k], tl[k + 1..];
    SplitAt(tl, k);
    SingleByKind(tl[k]);
    hide Reverts, Pairs;
    RevertsAppend(front, [tl[k]]);
    RevertsAppend(front + [tl[k]], rest);
    PairsAppend(front, [tl[k]]);
    PairsAppend(front + [tl[k]], rest);
    assert Reverts(tl) == Reverts(front) + Reverts([tl[k]]) + Reverts(rest);
    assert Pairs(tl) == Pairs(front) + Pairs([tl[k]]) + Pairs(rest);
  }

  /** How many of the first `n` pairs have a positive prediction. */
  function PositiveBefore(ps: seq<Pair>, n: nat): nat
    requires n <= |ps|
  {
    |set k | 0 <= k < n && ps[k].predicted > 0|
  }

  lemma PositiveAtMost(ps: seq<Pair>, n: nat)
    requires n <= |ps|
    ensures PositiveBefore(ps, n) <= n
  {
    AtMostRange((set k | 0 <= k < n && ps[k].predicted > 0), n);
  }

  lemma {:induction false} PositiveCount(ps: seq<Pair>, n: nat)
    requires n <= |ps|
    ensures |Positive(ps[..n])| == PositiveBefore(ps, n)
  {
    if n == 0 {
      PositiveAtMost(ps, n);
    } else {
      PositiveCount(ps, n - 1);
      PositiveBeforeStep(ps, n);
      hide PositiveBefore;
      assert ps[..n][..n - 1] == ps[..n - 1];
    }
  }

  lemma PositiveBeforeStep(ps: seq<Pair>, n: nat)
    requires 0 < n <= |ps|
    ensures PositiveBefore(ps, n) == PositiveBefore(ps, n - 1) + if ps[n - 1].predicted > 0 then 1 else 0
  {
    var before, after := set k | 0 <= k < n - 1 && ps[k].predicted > 0, set k | 0 <= k < n && ps[k].predicted > 0;
    if ps[n - 1].predicted > 0 {
      assert after == before + {n - 1};
    } else {
      assert after == before;
    }
  }

  /** The pairs the ratio guards see are exactly those with a positive prediction, in order. */
  lemma PositiveInOrder(ps: seq<Pair>, k: nat)
    requires k < |ps|
    ensures |Positive(ps)| == PositiveBefore(ps, |ps|)
    ensures ps[k].predicted > 0 ==>
              PositiveBefore(ps, k) < |Positive(ps)| && Positive(ps)[PositiveBefore(ps, k)] == ps[k]
  {
    PositiveCount(ps, k);
    PositiveCount(ps, |ps|);
    hide PositiveBefore;
    var front, one, rest := ps[..k], [ps[k]], ps[k + 1..];
    assert ps[..|ps|] == ps && ps == front + one + rest && one[..0] == [];
    PositiveAppend(front, one);
    PositiveAppend(front + one, rest);
  }

  // ---------------------------------------------------------------------
  // Concatenation.

  lemma {:induction false} PairsAppend(a: Timeline, b: Timeline)
    ensures Pairs(a + b) == Pairs(a) + Pairs(b)
    decreases |b|
  {
    if b == [] {
      assert a + b == a;
    } else {
      assert (a + b)[..|a + b| - 1] == a + b[..|b| - 1];
      PairsAppend(a, b[..|b| - 1]);
    }
  }

  lemma {:induction false} RevertsAppend(a: Timeline, b: Timeline)
    ensures Reverts(a + b) == Reverts(a) + Reverts(b)
    decreases |b|
  {
    if b == [] {
      assert a + b == a;
    } else {
      assert (a + b)[..|a + b| - 1] == a + b[..|b| - 1];
      RevertsAppend(a, b[..|b| - 1]);
    }
  }

  lemma {:induction false} PositiveAppend(a: seq<Pair>, b: seq<Pair>)
    ensures Positive(a + b) == Positive(a) + Positive(b)
    decreases |b|
  {
    if b == [] {
      assert a + b == a;
    } else {
      assert (a + b)[..|a + b| - 1] == a + b[..|b| - 1];
      PositiveAppend(a, b[..|b| - 1]);
    }
  }

  lemma GasOfNone()
    ensures GasBurned([]) == 0
  {
  }

  lemma {:induction false} GasBurnedAppend(a: Timeline, b: Timeline)
    ensures GasBurned(a + b) == GasBurned(a) + GasBurned(b)
    decreases |b|
  {
    if b == [] {
      assert a + b == a;
    } else {
      assert (a + b)[..|a + b| - 1] == a + b[..|b| - 1];
      GasBurnedAppend(a, b[..|b| - 1]);
    }
  }

  /** A long enough suffix has the same last elements as the whole. */
  lemma LastNOfSuffix<T>(a: seq<T>, b: seq<T>, n: nat)
    requires |b| >= n
    ensures LastN(a + b, n) == LastN(b, n)
  {
  }

  // ---------------------------------------------------------------------
  // The history object.

  class ReconcileHistory {
    var timeline: Timeline
    var pairs: seq<Pair>
    var reverts: seq<RevertEvent>

    /** `pairs` and `reverts` are the timeline, split by kind. */
    ghost predicate Valid()
      reads this
    {
      pairs == Pairs(timeline) && reverts == Reverts(timeline)
    }

    constructor ()
      ensures Valid() && timeline == []
    {
      timeline, pairs, reverts := [], [], [];
    }

    method Append(predicted: int, realized: int)
      requires Valid()
      modifies this
      ensures Valid()
      ensures timeline == old(timeline) + [ConfirmedPair(predicted, realized)]
      ensures pairs == old(pairs) + [Pair(predicted, realized)] && reverts == old(reverts)
    {
      timeline := timeline + [ConfirmedPair(predicted, realized)];
      pairs := pairs + [Pair(predicted, realized)];
    }

    method RecordRevert(event: RevertEvent)
      requires Valid()
      modifies this
      ensures Valid()
      ensures timeline == old(timeline) + [RevertedTx(event)]
      ensures reverts == old(reverts) + [event] && pairs == old(pairs)
    {
      timeline := timeline + [RevertedTx(event)];
      reverts := reverts + [event];
    }

    /** The length of the longest run of reverts that ends the timeline. */
    method ConsecutiveReverts() returns (count: nat)
      ensures count == TrailingReverts(timeline)
    {
      count := 0;
      var i := |timeline|;
      while i > 0
        invariant 0 <= i <= |timeline| && count == |timeline| - i
        invariant forall k :: i <= k < |timeline| ==> timeline[k].RevertedTx?
      {
        match timeline[i - 1] {
          case RevertedTx(_) => count := count + 1;
          case ConfirmedPair(_, _) => break;
        }
        i := i - 1;
      }
      TrailingRevertsUnique(timeline, count);
    }

    /** Fees burned by the reverts among the last `window` entries, newest first. */
    method RecentRevertGasBurned(window: nat) returns (burned: nat)
      ensures burned == GasBurned(LastN(timeline, window))
    {
      burned := 0;
      var recent := LastN(timeline, window);
      var i := |recent|;
      while i > 0
        invariant 0 <= i <= |recent| && burned == GasBurned(recent[i..])
      {
        i := i - 1;
        assert recent[i..] == [recent[i]] + recent[i + 1..];
        GasBurnedAppend([recent[i]], recent[i + 1..]);
        assert [recent[i]][..0] == [];
        match recent[i] {
          case RevertedTx(event) => burned := burned + event.gasUsed * event.effectiveGasPrice;
          case ConfirmedPair(_, _) =>
        }
      }
    }

    /** Ratios of the most recent `n` positive-prediction pairs, oldest first. */
    function RecentRatios(n: nat): (rs: seq<real>)
      reads this
      ensures |rs| <= n
    {
      Ratios(LastN(Positive(pairs), n))
    }
  }

  function TrailingReverts(tl: Timeline): (n: nat)
    ensures n <= |tl|
  {
    if tl != [] && tl[|tl| - 1].RevertedTx? then 1 + TrailingReverts(tl[..|tl| - 1]) else 0
  }

  /** The count is characterised by what stands before and after it. */
  lemma {:induction false} TrailingRevertsUnique(tl: Timeline, n: nat)
    requires n <= |tl|
    ensures TrailingReverts(tl) == n <==>
            && (forall k :: |tl| - n <= k < |tl| ==> tl[k].RevertedTx?)
            && (n < |tl| ==> tl[|tl| - 1 - n].ConfirmedPair?)
  {
    if n > 0 {
      var front := tl[..|tl| - 1];
      TrailingRevertsUnique(front, n - 1);
      if tl[|tl| - 1].RevertedTx? {
        assert forall k :: |tl| - n <= k < |tl| - 1 ==> front[k] == tl[k];
      }
    }
  }
}
