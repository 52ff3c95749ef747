/**
 * The benchmark's SplitMix64 generator: its output mix is a permutation of the
 * 64-bit words, and the counter behind it has full period.
 */
module Rng {
  import opened Bytes
  import opened Words

  class Rng {
    var state: bv64

    constructor (seed: bv64)
      ensures state == Seeded(seed)
    {
      state := seed ^ 0x9E3779B97F4A7C15;
    }

    /** Advances the state by one step and returns its mix. */
    method NextU64() returns (z: bv64)
      modifies this
      ensures state == Next(old(state))
      ensures z == Mix(state)
    {
      hide Xs30, Xs27, Xs31, Times1, Times2;
      state := state + 0x9E3779B97F4A7C15;
      z := state;
      z := Times1(Xs30(z));
      z := Times2(Xs27(z));
      z := Xs31(z);
    }
  }

  function Seeded(seed: bv64): bv64 { seed ^ 0x9E3779B97F4A7C15 }

  /** One step of the state: the increment is odd, and addition wraps. */
  function Next(s: bv64): bv64 { s + 0x9E3779B97F4A7C15 }

  function Xor(x: bv64, y: bv64): bv64 { x ^ y }

  function Right30(z: bv64): bv64 { z >> 30 }
  function Right60(z: bv64): bv64 { z >> 60 }
  function Right27(z: bv64): bv64 { z >> 27 }
  function Right54(z: bv64): bv64 { z >> 54 }
  function Right31(z: bv64): bv64 { z >> 31 }
  function Right62(z: bv64): bv64 { z >> 62 }

  function Xs30(z: bv64): bv64 { Xor(z, Right30(z)) }
  function Xs27(z: bv64): bv64 { Xor(z, Right27(z)) }
  function Xs31(z: bv64): bv64 { Xor(z, Right31(z)) }
  function Times1(z: bv64): bv64 { z * 0xBF58476D1CE4E5B9 }
  function Times2(z: bv64): bv64 { z * 0x94D049BB133111EB }

  function Mix(z: bv64): bv64 { Xs31(Times2(Xs27(Times1(Xs30(z))))) }

  // ---------------------------------------------------------------------
  // The mix has an inverse.

  function UnXs30(y: bv64): bv64 { Xor(Xor(y, Right30(y)), Right60(y)) }
  function UnXs27(y: bv64): bv64 { Xor(Xor(y, Right27(y)), Right54(y)) }
  function UnXs31(y: bv64): bv64 { Xor(Xor(y, Right31(y)), Right62(y)) }
  function Over1(z: bv64): bv64 { z * 0x96DE1B173F119089 }
  function Over2(z: bv64): bv64 { z * 0x319642B2D24D8EC3 }

  function Unmix(y: bv64): bv64 { UnXs30(Over1(UnXs27(Over2(UnXs31(y))))) }

  lemma XorZero(x: bv64)
    ensures Xor(x, 0) == x
  {
  }

  lemma XorCancels(x: bv64, y: bv64)
    ensures Xor(Xor(x, y), y) == x
    ensures Xor(x, Xor(x, y)) == y
  {
  }

  lemma XorIs(x: bv64, y: bv64)
    ensures Xor(x, y) == x ^ y
  {
  }

  lemma BitsAssociate(x: bv64, y: bv64, z: bv64)
    ensures (x ^ y) ^ z == x ^ (y ^ z)
  {
  }

  lemma XorAssociates(x: bv64, y: bv64, z: bv64)
    ensures Xor(Xor(x, y), z) == Xor(x, Xor(y, z))
  {
    hide Xor;
    XorIs(x, y);
    XorIs(y, z);
    XorIs(Xor(x, y), z);
    XorIs(x, Xor(y, z));
    BitsAssociate(x, y, z);
  }

  lemma XorCollapse(z: bv64, a: bv64, b: bv64)
    ensures Xor(Xor(Xor(z, a), Xor(a, b)), Xor(b, 0)) == z
    ensures Xor(Xor(Xor(z, a), b), Xor(Xor(a, b), 0)) == z
  {
    hide Xor;
    XorZero(b);
    XorZero(Xor(a, b));
    XorAssociates(z, a, Xor(a, b));
    XorAssociates(z, a, b);
    XorCancels(a, b);
    XorCancels(z, b);
    XorCancels(z, Xor(a, b));
  }

  lemma Right30Laws(x: bv64, y: bv64)
    ensures Right30(Xor(x, y)) == Xor(Right30(x), Right30(y))
    ensures Right60(Xor(x, y)) == Xor(Right60(x), Right60(y))
  {
  }

  lemma Right30Twice(z: bv64)
    ensures Right30(Right30(z)) == Right60(z)
    ensures Right60(Right30(z)) == 0 && Right30(Right60(z)) == 0
  {
  }

  lemma Shift30(z: bv64)
    ensures UnXs30(Xs30(z)) == z
  {
    hide Xor, Right30, Right60;
    Right30Laws(z, Right30(z));
    Right30Twice(z);
    XorCollapse(z, Right30(z), Right60(z));
  }

  lemma Unshift30(y: bv64)
    ensures Xs30(UnXs30(y)) == y
  {
    hide Xor, Right30, Right60;
    Right30Laws(Xor(y, Right30(y)), Right60(y));
    Right30Laws(y, Right30(y));
    Right30Twice(y);
    XorCollapse(y, Right30(y), Right60(y));
  }

  lemma Right27Laws(x: bv64, y: bv64)
    ensures Right27(Xor(x, y)) == Xor(Right27(x), Right27(y))
    ensures Right54(Xor(x, y)) == Xor(Right54(x), Right54(y))
  {
  }

  lemma Right27Twice(z: bv64)
    ensures Right27(Right27(z)) == Right54(z)
    ensures Right54(Right27(z)) == 0 && Right27(Right54(z)) == 0
  {
  }

  lemma Shift27(z: bv64)
    ensures UnXs27(Xs27(z)) == z
  {
    hide Xor, Right27, Right54;
    Right27Laws(z, Right27(z));
    Right27Twice(z);
    XorCollapse(z, Right27(z), Right54(z));
  }

  lemma Unshift27(y: bv64)
    ensures Xs27(UnXs27(y)) == y
  {
    hide Xor, Right27, Right54;
    Right27Laws(Xor(y, Right27(y)), Right54(y));
    Right27Laws(y, Right27(y));
    Right27Twice(y);
    XorCollapse(y, Right27(y), Right54(y));
  }

  lemma Right31Laws(x: bv64, y: bv64)
    ensures Right31(Xor(x, y)) == Xor(Right31(x), Right31(y))
    ensures Right62(Xor(x, y)) == Xor(Right62(x), Right62(y))
  {
  }

  lemma Right31Twice(z: bv64)
    ensures Right31(Right31(z)) == Right62(z)
    ensures Right62(Right31(z)) == 0 && Right31(Right62(z)) == 0
  {
  }

  lemma Shift31(z: bv64)
    ensures UnXs31(Xs31(z)) == z
  {
    hide Xor, Right31, Right62;
    Right31Laws(z, Right31(z));
    Right31Twice(z);
    XorCollapse(z, Right31(z), Right62(z));
  }

  lemma Unshift31(y: bv64)
    ensures Xs31(UnXs31(y)) == y
  {
    hide Xor, Right31, Right62;
    Right31Laws(Xor(y, Right31(y)), Right62(y));
    Right31Laws(y, Right31(y));
    Right31Twice(y);
    XorCollapse(y, Right31(y), Right62(y));
  }

  lemma ScaleBy1(z: bv64)
    ensures Times1(z) == z * 0xBF58476D1CE4E5B9
  {
  }

  lemma UnscaleBy1(z: bv64)
    ensures Over1(z) == z * 0x96DE1B173F119089
  {
  }

  lemma OverProduct1(z: bv64)
    ensures Over1(z * 0xBF58476D1CE4E5B9) == z
  {
    hide Times1;
  }

  lemma TimesProduct1(z: bv64)
    ensures Times1(z * 0x96DE1B173F119089) == z
  {
    hide Over1;
  }

  lemma Factor1(z: bv64)
    ensures Over1(Times1(z)) == z
  {
    hide Times1, Over1;
    ScaleBy1(z);
    OverProduct1(z);
  }

  lemma Unfactor1(z: bv64)
    ensures Times1(Over1(z)) == z
  {
    hide Times1, Over1;
    UnscaleBy1(z);
    TimesProduct1(z);
  }

  lemma ScaleBy2(z: bv64)
    ensures Times2(z) == z * 0x94D049BB133111EB
  {
  }

  lemma UnscaleBy2(z: bv64)
    ensures Over2(z) == z * 0x319642B2D24D8EC3
  {
  }

  lemma OverProduct2(z: bv64)
    ensures Over2(z * 0x94D049BB133111EB) == z
  {
    hide Times2;
  }

  lemma TimesProduct2(z: bv64)
    ensures Times2(z * 0x319642B2D24D8EC3) == z
  {
    hide Over2;
  }

  lemma Factor2(z: bv64)
    ensures Over2(Times2(z)) == z
  {
    hide Times2, Over2;
    ScaleBy2(z);
    OverProduct2(z);
  }

  lemma Unfactor2(z: bv64)
    ensures Times2(Over2(z)) == z
  {
    hide Times2, Over2;
    UnscaleBy2(z);
    TimesProduct2(z);
  }

  /** Every 64-bit value is the mix of exactly one state. */
  lemma MixIsPermutation(z: bv64)
    ensures Unmix(Mix(z)) == z
    ensures Mix(Unmix(z)) == z
  {
    hide Xs30, Xs27, Xs31, Times1, Times2, UnXs30, UnXs27, UnXs31, Over1, Over2;
    var a := Xs30(z);
    var b := Times1(a);
    var c := Xs27(b);
    var d := Times2(c);
    Shift31(d);
    Factor2(c);
    Shift27(b);
    Factor1(a);
    Shift30(z);
    var e := UnXs31(z);
    var f := Over2(e);
    var g := UnXs27(f);
    var h := Over1(g);
    Unshift30(h);
    Unfactor1(g);
    Unshift27(f);
    Unfactor2(e);
    Unshift31(z);
  }

  // ---------------------------------------------------------------------
  // The state walks through all 2^64 words before it repeats.

  /** The state after `n` calls. */
  function Advance(s: bv64, n: nat): bv64 {
    if n == 0 then s else Next(Advance(s, n - 1))
  }

  function Plus(x: bv64, y: bv64): bv64 { x + y }

  function Minus(x: bv64, y: bv64): bv64 { x - y }

  /** The state scaled by the inverse of the increment: each call adds one to it. */
  function Phase(s: bv64): bv64 { s * 0xF1DE83E19937733D }

  function Unphase(x: bv64): bv64 { x * 0x9E3779B97F4A7C15 }

  lemma NextAdds(s: bv64)
    ensures Next(s) == s + 0x9E3779B97F4A7C15
  {
  }

  lemma PhaseOfSum(s: bv64)
    ensures Phase(s + 0x9E3779B97F4A7C15) == Phase(s) + 1
  {
  }

  lemma SuccAdds(x: bv64)
    ensures Succ(x) == x + 1
  {
  }

  lemma PhaseNext(s: bv64)
    ensures Phase(Next(s)) == Succ(Phase(s))
  {
    hide Phase, Next, Succ;
    NextAdds(s);
    PhaseOfSum(s);
    SuccAdds(Phase(s));
  }

  lemma PhaseScales(s: bv64)
    ensures Phase(s) == s * 0xF1DE83E19937733D
  {
  }

  lemma UnphaseProduct(s: bv64)
    ensures Unphase(s * 0xF1DE83E19937733D) == s
  {
  }

  lemma PhaseInverse(s: bv64)
    ensures Unphase(Phase(s)) == s
  {
    hide Phase, Unphase;
    PhaseScales(s);
    UnphaseProduct(s);
  }

  lemma PlusSucc(x: bv64, y: bv64)
    ensures Succ(Plus(x, y)) == Plus(x, Succ(y))
    ensures Plus(x, 0) == x
  {
  }

  lemma PlusIs(x: bv64, y: bv64)
    ensures Plus(x, y) == x + y
  {
  }

  lemma MinusSum(x: bv64, y: bv64)
    ensures Minus(x + y, x) == y
  {
  }

  lemma PlusCancel(x: bv64, y: bv64, z: bv64)
    requires Plus(x, y) == Plus(x, z)
    ensures y == z
  {
    hide Plus, Minus;
    PlusIs(x, y);
    PlusIs(x, z);
    MinusSum(x, y);
    MinusSum(x, z);
  }

  lemma MinusIs(x: bv64, y: bv64)
    ensures Minus(x, y) == x - y
  {
  }

  lemma PlusDifference(x: bv64, y: bv64)
    ensures Plus(x, y - x) == y
  {
  }

  lemma PlusMinus(x: bv64, y: bv64)
    ensures Plus(x, Minus(y, x)) == y
  {
    hide Plus, Minus;
    MinusIs(y, x);
    PlusDifference(x, y);
  }

  lemma {:induction false} PhaseCounts(s: bv64, n: nat)
    ensures Phase(Advance(s, n)) == Plus(Phase(s), Count(n))
  {
    hide Phase, Next, Plus, Succ;
    PlusSucc(Phase(s), 0);
    if n > 0 {
      PhaseCounts(s, n - 1);
      PhaseNext(Advance(s, n - 1));
      PlusSucc(Phase(s), Count(n - 1));
    }
  }

  /** The `n`-th output of a generator whose state is `s`. */
  function Output(s: bv64, n: nat): bv64 { Mix(Advance(s, n + 1)) }

  lemma MixInjective(x: bv64, y: bv64)
    requires Mix(x) == Mix(y)
    ensures x == y
  {
    hide Mix, Unmix;
    MixIsPermutation(x);
    MixIsPermutation(y);
  }

  lemma AdvanceDistinct(s: bv64, m: nat, n: nat)
    requires m < TWO_64 && n < TWO_64 && Advance(s, m) == Advance(s, n)
    ensures m == n
  {
    hide Advance, Phase, Count, Value64, Plus;
    PhaseCounts(s, m);
    PhaseCounts(s, n);
    PlusCancel(Phase(s), Count(m), Count(n));
    CountValue(m);
    CountValue(n);
  }

  lemma {:induction false} AdvanceSplits(s: bv64, m: nat, n: nat)
    ensures Advance(s, m + n) == Advance(Advance(s, m), n)
  {
    if n > 0 {
      AdvanceSplits(s, m, n - 1);
    }
  }

  /** Any 2^64 consecutive outputs are pairwise distinct. */
  lemma OutputsDistinct(s: bv64, start: nat, m: nat, n: nat)
    requires m < n < TWO_64
    ensures Output(s, start + m) != Output(s, start + n)
  {
    hide Advance, Mix;
    if Output(s, start + m) == Output(s, start + n) {
      MixInjective(Advance(s, start + m + 1), Advance(s, start + n + 1));
      AdvanceSplits(s, start + 1, m);
      AdvanceSplits(s, start + 1, n);
      AdvanceDistinct(Advance(s, start + 1), m, n);
    }
  }

  /** And between them they are all the 64-bit values. */
  lemma OutputsOnto(s: bv64, start: nat, y: bv64) returns (n: nat)
    ensures n < TWO_64 && Output(s, start + n) == y
  {
    hide Advance, Mix, Unmix, Phase, Unphase, Count, Value64, Plus, Minus;
    var base, target := Advance(s, start + 1), Unmix(y);
    var gap := Minus(Phase(target), Phase(base));
    n := Value64(gap);
    CountOnto(gap);
    PhaseCounts(base, n);
    PlusMinus(Phase(base), Phase(target));
    PhaseInverse(Advance(base, n));
    PhaseInverse(target);
    AdvanceSplits(s, start + 1, n);
    MixIsPermutation(y);
  }

  lemma NextInjective(x: bv64, y: bv64)
    requires Next(x) == Next(y)
    ensures x == y
  {
  }

  lemma {:induction false} AdvanceInjective(s: bv64, t: bv64, n: nat)
    requires Advance(s, n) == Advance(t, n)
    ensures s == t
  {
    hide Next;
    if n > 0 {
      NextInjective(Advance(s, n - 1), Advance(t, n - 1));
      AdvanceInjective(s, t, n - 1);
    }
  }

  lemma SeedInjective(x: bv64, y: bv64)
    requires Seeded(x) == Seeded(y)
    ensures x == y
  {
  }

  /** Streams from two different seeds differ at every position. */
  lemma SeedsNeverMeet(a: bv64, b: bv64, n: nat)
    requires a != b
    ensures Output(Seeded(a), n) != Output(Seeded(b), n)
  {
    hide Advance, Mix, Seeded;
    if Output(Seeded(a), n) == Output(Seeded(b), n) {
      MixInjective(Advance(Seeded(a), n + 1), Advance(Seeded(b), n + 1));
      AdvanceInjective(Seeded(a), Seeded(b), n + 1);
      SeedInjective(a, b);
    }
  }

  // ---------------------------------------------------------------------
  // Known outputs.

  lemma StreamStarts()
    ensures Seeded(0x9E3779B97F4A7C15) == 0 && Seeded(0) == 0x9E3779B97F4A7C15
    ensures Mix(Next(Seeded(0x9E3779B97F4A7C15))) == 0xE220A8397B1DCDAF
    ensures Mix(Next(Next(Seeded(0x9E3779B97F4A7C15)))) == 0x6E789E6AA1B965F4
    ensures Mix(Next(Next(Next(Seeded(0x9E3779B97F4A7C15))))) == 0x06C45D188009454F
  {
  }
}
