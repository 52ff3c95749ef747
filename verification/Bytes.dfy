/** Octets and the big-endian integer encodings the journal and RLP use. */
module Bytes {
  import Arith

  type Byte = i: int | 0 <= i < 256

  const TWO_16 := 0x1_0000
  const TWO_32 := 0x1_0000_0000
  const TWO_64 := 0x1_0000_0000_0000_0000
  const TWO_127 := 0x8000_0000_0000_0000_0000_0000_0000_0000
  const TWO_128 := 0x1_0000_0000_0000_0000_0000_0000_0000_0000

  type U64 = n: int | 0 <= n < TWO_64
  type U128 = n: int | 0 <= n < TWO_128
  type I128 = n: int | -TWO_127 <= n < TWO_127

  function Pow256(k: nat): (p: nat)
    ensures p > 0
  {
    if k == 0 then 1 else 256 * Pow256(k - 1)
  }

  lemma Pow256Table()
    ensures Pow256(2) == TWO_16 && Pow256(4) == TWO_32
    ensures Pow256(8) == TWO_64 && Pow256(16) == TWO_128
  {
    assert Pow256(4) == 256 * 256 * 256 * 256;
    assert Pow256(6) == TWO_16 * Pow256(4);
    assert Pow256(8) == TWO_16 * Pow256(6);
    assert Pow256(10) == TWO_16 * Pow256(8);
    assert Pow256(12) == TWO_16 * Pow256(10);
    assert Pow256(14) == TWO_16 * Pow256(12);
    assert Pow256(16) == TWO_16 * Pow256(14);
  }

  lemma {:induction false} Pow256Monotone(j: nat, k: nat)
    requires j <= k
    ensures Pow256(j) <= Pow256(k)
    decreases k
  {
    if j < k {
      Pow256Monotone(j, k - 1);
    }
  }

  /** `n` as exactly `k` octets, most significant first. */
  function ToBE(n: nat, k: nat): (bs: seq<Byte>)
    ensures |bs| == k
  {
    if k == 0 then [] else ToBE(n / 256, k - 1) + [n % 256]
  }

  /** The number a big-endian octet string denotes. */
  function FromBE(bs: seq<Byte>): (n: nat)
    ensures n < Pow256(|bs|)
  {
    if bs == [] then 0
    else FromBE(bs[..|bs| - 1]) * 256 + bs[|bs| - 1]
  }

  /** Octet `i` of `k` is the digit of weight 256 to the power `k - 1 - i`. */
  lemma {:induction false} BEDigit(n: nat, k: nat, i: nat)
    requires i < k
    ensures ToBE(n, k)[i] == (n / Pow256(k - 1 - i)) % 256
  {
    if i < k - 1 {
      BEDigit(n / 256, k - 1, i);
      QuotientOfQuotient(n, Pow256(k - 2 - i));
    }
  }

  lemma QuotientOfQuotient(n: nat, m: nat)
    requires m > 0
    ensures (n / 256) / m == n / (256 * m)
  {
    var q, r := n / (256 * m), n % (256 * m);
    assert n == 256 * (m * q) + r;
    var a, b := r / 256, r % 256;
    assert n / 256 == m * q + a;
    assert a < m;
    Arith.DivUnique(m * q + a, m, q, a);
  }

  lemma BEDigits(n: nat, k: nat)
    ensures forall i :: 0 <= i < k ==> ToBE(n, k)[i] == (n / Pow256(k - 1 - i)) % 256
  {
    forall i | 0 <= i < k ensures ToBE(n, k)[i] == (n / Pow256(k - 1 - i)) % 256 {
      BEDigit(n, k, i);
    }
  }

  lemma {:induction false} FromToBE(n: nat, k: nat)
    requires n < Pow256(k)
    ensures FromBE(ToBE(n, k)) == n
  {
    if k > 0 {
      FromToBE(n / 256, k - 1);
      assert ToBE(n, k)[..k - 1] == ToBE(n / 256, k - 1);
    }
  }

  lemma {:induction false} ToFromBE(bs: seq<Byte>)
    ensures ToBE(FromBE(bs), |bs|) == bs
  {
    if bs != [] {
      ToFromBE(bs[..|bs| - 1]);
      assert bs == bs[..|bs| - 1] + [bs[|bs| - 1]];
    }
  }

  /** Octet strings of one length denoting one number are the same string. */
  lemma FromBEInjective(a: seq<Byte>, b: seq<Byte>)
    requires |a| == |b| && FromBE(a) == FromBE(b)
    ensures a == b
  {
    ToFromBE(a);
    ToFromBE(b);
  }

  // Two's complement, sixteen octets.

  function I128ToBE(x: I128): (bs: seq<Byte>)
    ensures |bs| == 16
  {
    ToBE(if x < 0 then x + TWO_128 else x, 16)
  }

  function I128FromBE(bs: seq<Byte>): (x: I128)
    requires |bs| == 16
  {
    Pow256Table();
    var n := FromBE(bs);
    if n >= TWO_127 then n - TWO_128 else n
  }

  lemma I128RoundTrip(x: I128)
    ensures I128FromBE(I128ToBE(x)) == x
  {
    Pow256Table();
    FromToBE(if x < 0 then x + TWO_128 else x, 16);
  }
}
