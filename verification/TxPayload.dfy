/** The example bot's signing and signed payloads. */
module TxPayload {
  import opened Bytes
  import opened History
  import opened Rlp

  /** The widths are the source's; a Rust byte vector holds fewer than 2^63 bytes. */
  datatype UnsignedTx = UnsignedTx(
    nonce: U64, gasPrice: U128, gasLimit: U64, to: seq<Byte>, value: U128, data: seq<Byte>, chainId: U64)
  {
    predicate Typed() {
      |to| == 20 && |data| < 0x8000_0000_0000_0000
    }
  }

  predicate IsWord(bs: seq<Byte>) { |bs| == 32 }

  function BigUint(bs: seq<Byte>): Item { Bytes(LeadingZeroTrim(bs)) }

  function Uint(value: U128): Item { BigUint(ToBE(value, 16)) }

  /** The signature's `v`: 64-bit arithmetic that wraps in release builds (debug builds panic instead). */
  function SignatureV(chainId: U64, recoveryId: Byte): U64 {
    (chainId * 2 + 35 + recoveryId) % TWO_64
  }

  predicate NoOverflow(chainId: U64, recoveryId: Byte) {
    chainId * 2 + 35 + recoveryId < TWO_64
  }

  function CommonItems(tx: UnsignedTx): seq<Item> {
    [Uint(tx.nonce), Uint(tx.gasPrice), Uint(tx.gasLimit), Bytes(tx.to), Uint(tx.value), Bytes(tx.data)]
  }

  function SigningItems(tx: UnsignedTx): seq<Item> {
    CommonItems(tx) + [Uint(tx.chainId), Uint(0), Uint(0)]
  }

  function SignedItems(tx: UnsignedTx, r: seq<Byte>, s: seq<Byte>, recoveryId: Byte): seq<Item> {
    CommonItems(tx) + [Uint(SignatureV(tx.chainId, recoveryId)), BigUint(r), BigUint(s)]
  }

  /** What is hashed and signed. */
  function SigningPayload(tx: UnsignedTx): seq<Byte> {
    Encode(List(SigningItems(tx)))
  }

  function SignedTxRlp(tx: UnsignedTx, r: seq<Byte>, s: seq<Byte>, recoveryId: Byte): seq<Byte> {
    Encode(List(SignedItems(tx, r, s, recoveryId)))
  }

  // ---------------------------------------------------------------------
  // The payloads fit 64-bit lengths.

  predicate Small(item: Item) { item.Bytes? && |item.bytes| <= 32 }

  predicate AllSmall(items: seq<Item>) { forall i :: 0 <= i < |items| ==> Small(items[i]) }

  lemma EncodedLength(bs: seq<Byte>)
    ensures |EncodeBytes(bs)| <= |bs| + 9
  {
  }

  lemma {:induction false} SmallItemsFit(items: seq<Item>)
    requires AllSmall(items)
    ensures AllFit(items) && |EncodeAll(items)| <= 41 * |items|
  {
    if items != [] {
      EncodedLength(items[0].bytes);
      SmallItemsFit(items[1..]);
    }
  }

  lemma {:induction false} AllFitAppend(a: seq<Item>, b: seq<Item>)
    requires AllFit(a) && AllFit(b)
    ensures AllFit(a + b) && EncodeAll(a + b) == EncodeAll(a) + EncodeAll(b)
  {
    hide Fits, Encode;
    if a == [] {
      assert a + b == b;
    } else {
      assert (a + b)[1..] == a[1..] + b;
      AllFitAppend(a[1..], b);
    }
  }

  /** Small items around one byte string: the shape of both payloads. */
  lemma TxItemsFit(a: seq<Item>, data: seq<Byte>, b: seq<Item>)
    requires AllSmall(a) && AllSmall(b) && |a| <= 10 && |b| <= 10 && |data| < 0x8000_0000_0000_0000
    ensures Fits(List(a + [Bytes(data)] + b))
  {
    hide Encode, Small;
    SmallItemsFit(a);
    SmallItemsFit(b);
    OneFits(data);
    AllFitAppend(a, [Bytes(data)]);
    AllFitAppend(a + [Bytes(data)], b);
  }

  lemma OneFits(data: seq<Byte>)
    requires |data| < 0x8000_0000_0000_0000
    ensures AllFit([Bytes(data)]) && |EncodeAll([Bytes(data)])| <= |data| + 9
  {
    EncodedLength(data);
    var items := [Bytes(data)];
    assert items[0] == Bytes(data) && items[1..] == [];
    assert EncodeAll(items[1..]) == [] && AllFit(items[1..]);
    assert Fits(items[0]);
  }

  lemma SigningFits(tx: UnsignedTx)
    requires tx.Typed()
    ensures Fits(List(SigningItems(tx)))
  {
    hide Fits;
    var a := [Uint(tx.nonce), Uint(tx.gasPrice), Uint(tx.gasLimit), Bytes(tx.to), Uint(tx.value)];
    var b := [Uint(tx.chainId), Uint(0), Uint(0)];
    TxItemsFit(a, tx.data, b);
    assert SigningItems(tx) == a + [Bytes(tx.data)] + b;
  }

  lemma SignedFits(tx: UnsignedTx, r: seq<Byte>, s: seq<Byte>, recoveryId: Byte)
    requires tx.Typed() && IsWord(r) && IsWord(s)
    ensures Fits(List(SignedItems(tx, r, s, recoveryId)))
  {
    hide Fits;
    var a := [Uint(tx.nonce), Uint(tx.gasPrice), Uint(tx.gasLimit), Bytes(tx.to), Uint(tx.value)];
    var b := [Uint(SignatureV(tx.chainId, recoveryId)), BigUint(r), BigUint(s)];
    TxItemsFit(a, tx.data, b);
    assert SignedItems(tx, r, s, recoveryId) == a + [Bytes(tx.data)] + b;
  }

  // ---------------------------------------------------------------------
  // Injectivity.

  /** Strings of one length are determined by what trimming leaves of them. */
  lemma TrimInjective(a: seq<Byte>, b: seq<Byte>)
    requires |a| == |b| && LeadingZeroTrim(a) == LeadingZeroTrim(b)
    ensures a == b
  {
    TrimKeepsValue(a);
    TrimKeepsValue(b);
    FromBEInjective(a, b);
  }

  lemma UintInjective(m: U128, n: U128)
    requires Uint(m) == Uint(n)
    ensures m == n
  {
    TrimInjective(ToBE(m, 16), ToBE(n, 16));
    Pow256Table();
    FromToBE(m, 16);
    FromToBE(n, 16);
  }

  /** The fields both payloads carry. */
  predicate SameFields(a: UnsignedTx, b: UnsignedTx) {
    && a.nonce == b.nonce && a.gasPrice == b.gasPrice && a.gasLimit == b.gasLimit
    && a.to == b.to && a.value == b.value && a.data == b.data
  }

  lemma CommonItemsInjective(a: UnsignedTx, b: UnsignedTx, x: seq<Item>, y: seq<Item>)
    requires CommonItems(a) + x == CommonItems(b) + y
    ensures SameFields(a, b) && x == y
  {
    hide Uint;
    var p, q := CommonItems(a), CommonItems(b);
    assert p == (p + x)[..6] && q == (q + y)[..6] && x == (p + x)[6..] && y == (q + y)[6..];
    assert p == q;
    UintInjective(a.nonce, b.nonce);
    UintInjective(a.gasPrice, b.gasPrice);
    UintInjective(a.gasLimit, b.gasLimit);
    UintInjective(a.value, b.value);
    assert p[3] == Bytes(a.to) && q[3] == Bytes(b.to) && p[5] == Bytes(a.data) && q[5] == Bytes(b.data);
  }

  /** The bytes that are signed determine the whole transaction. */
  lemma SigningPayloadInjective(a: UnsignedTx, b: UnsignedTx)
    requires a.Typed() && b.Typed() && SigningPayload(a) == SigningPayload(b)
    ensures a == b
  {
    hide Encode, Fits, Uint;
    SigningFits(a);
    SigningFits(b);
    assert SigningPayload(a) + [] == SigningPayload(b) + [];
    UniquelyDecodable(List(SigningItems(a)), [], List(SigningItems(b)), []);
    var x, y := [Uint(a.chainId), Uint(0), Uint(0)], [Uint(b.chainId), Uint(0), Uint(0)];
    CommonItemsInjective(a, b, x, y);
    assert x[0] == y[0];
    UintInjective(a.chainId, b.chainId);
  }

  lemma SignedItemsEqual(
    a: UnsignedTx, r: seq<Byte>, s: seq<Byte>, i: Byte, b: UnsignedTx, t: seq<Byte>, u: seq<Byte>, j: Byte)
    requires IsWord(r) && IsWord(s) && IsWord(t) && IsWord(u)
    requires SignedItems(a, r, s, i) == SignedItems(b, t, u, j)
    ensures SameFields(a, b) && r == t && s == u && SignatureV(a.chainId, i) == SignatureV(b.chainId, j)
  {
    hide Uint, BigUint, SignatureV;
    var x := [Uint(SignatureV(a.chainId, i)), BigUint(r), BigUint(s)];
    var y := [Uint(SignatureV(b.chainId, j)), BigUint(t), BigUint(u)];
    CommonItemsInjective(a, b, x, y);
    assert x[0] == y[0] && x[1] == y[1] && x[2] == y[2];
    UintInjective(SignatureV(a.chainId, i), SignatureV(b.chainId, j));
    BigUintInjective(r, t);
    BigUintInjective(s, u);
  }

  lemma BigUintInjective(r: seq<Byte>, t: seq<Byte>)
    requires |r| == |t| && BigUint(r) == BigUint(t)
    ensures r == t
  {
    TrimInjective(r, t);
  }

  /** Two signed transactions have the same bytes exactly when all fields, `r`, `s` and `v` agree. */
  lemma SignedTxEqualExactly(
    a: UnsignedTx, r: seq<Byte>, s: seq<Byte>, i: Byte, b: UnsignedTx, t: seq<Byte>, u: seq<Byte>, j: Byte)
    requires a.Typed() && b.Typed() && IsWord(r) && IsWord(s) && IsWord(t) && IsWord(u)
    ensures SignedTxRlp(a, r, s, i) == SignedTxRlp(b, t, u, j)
            <==> SameFields(a, b) && r == t && s == u && SignatureV(a.chainId, i) == SignatureV(b.chainId, j)
  {
    hide Encode, Fits, SignatureV;
    if SignedTxRlp(a, r, s, i) == SignedTxRlp(b, t, u, j) {
      SignedFits(a, r, s, i);
      SignedFits(b, t, u, j);
      assert SignedTxRlp(a, r, s, i) + [] == SignedTxRlp(b, t, u, j) + [];
      UniquelyDecodable(List(SignedItems(a, r, s, i)), [], List(SignedItems(b, t, u, j)), []);
      SignedItemsEqual(a, r, s, i, b, t, u, j);
    }
  }

  /** Without overflow and with recovery id 0 or 1, the signed bytes determine everything that went into them. */
  lemma SignedTxInjective(
    a: UnsignedTx, r: seq<Byte>, s: seq<Byte>, i: Byte, b: UnsignedTx, t: seq<Byte>, u: seq<Byte>, j: Byte)
    requires a.Typed() && b.Typed() && IsWord(r) && IsWord(s) && IsWord(t) && IsWord(u)
    requires i <= 1 && j <= 1 && NoOverflow(a.chainId, i) && NoOverflow(b.chainId, j)
    requires SignedTxRlp(a, r, s, i) == SignedTxRlp(b, t, u, j)
    ensures a == b && r == t && s == u && i == j
  {
    hide SignedTxRlp;
    SignedTxEqualExactly(a, r, s, i, b, t, u, j);
  }

  /**
   * Both conditions are needed: recovery id 2 on one chain collides with 0 on
   * the next, and a wrapped `v` collides across chains 2^63 apart.
   */
  lemma SignedTxCollisions(tx: UnsignedTx, r: seq<Byte>, s: seq<Byte>, chain: U64)
    requires tx.Typed() && IsWord(r) && IsWord(s) && chain < 0x7fff_ffff_ffff_0000
    ensures SignedTxRlp(tx.(chainId := chain), r, s, 2) == SignedTxRlp(tx.(chainId := chain + 1), r, s, 0)
    ensures SignedTxRlp(tx.(chainId := chain), r, s, 0)
            == SignedTxRlp(tx.(chainId := chain + 0x8000_0000_0000_0000), r, s, 0)
  {
    hide SignedTxRlp;
    SignedTxEqualExactly(tx.(chainId := chain), r, s, 2, tx.(chainId := chain + 1), r, s, 0);
    SignedTxEqualExactly(
      tx.(chainId := chain), r, s, 0, tx.(chainId := chain + 0x8000_0000_0000_0000), r, s, 0);
  }

  lemma ZeroUint(bs: seq<Byte>)
    ensures BigUint(bs) == Uint(0) <==> FromBE(bs) == 0
  {
    Pow256Table();
    FromToBE(0, 16);
    TrimKeepsValue(ToBE(0, 16));
    TrimKeepsValue(bs);
    TrimmedZero(LeadingZeroTrim(ToBE(0, 16)));
    TrimmedZero(LeadingZeroTrim(bs));
  }

  lemma {:induction false} LeadingDigit(bs: seq<Byte>)
    requires bs != [] && bs[0] != 0
    ensures FromBE(bs) > 0
  {
    if |bs| > 1 {
      LeadingDigit(bs[..|bs| - 1]);
    }
  }

  lemma TrimmedZero(bs: seq<Byte>)
    requires bs != [] ==> bs[0] != 0
    ensures FromBE(bs) == 0 <==> bs == []
  {
    if bs != [] {
      LeadingDigit(bs);
    }
  }

  /**
   * A signed payload equals a signing pre-image exactly when its signature is
   * all zero and the chain id of the pre-image is its `v`; so with `r` nonzero
   * it never does.
   */
  lemma SignedNeverSigningExactly(
    a: UnsignedTx, r: seq<Byte>, s: seq<Byte>, i: Byte, b: UnsignedTx)
    requires a.Typed() && b.Typed() && IsWord(r) && IsWord(s)
    ensures SignedTxRlp(a, r, s, i) == SigningPayload(b)
            <==> && SameFields(a, b) && SignatureV(a.chainId, i) == b.chainId
                 && FromBE(r) == 0 && FromBE(s) == 0
  {
    hide Encode, Fits, SignatureV, Uint, BigUint, FromBE;
    ZeroUint(r);
    ZeroUint(s);
    var x := [Uint(SignatureV(a.chainId, i)), BigUint(r), BigUint(s)];
    var y := [Uint(b.chainId), Uint(0), Uint(0)];
    if SignedTxRlp(a, r, s, i) == SigningPayload(b) {
      SignedFits(a, r, s, i);
      SigningFits(b);
      assert SignedTxRlp(a, r, s, i) + [] == SigningPayload(b) + [];
      UniquelyDecodable(List(SignedItems(a, r, s, i)), [], List(SigningItems(b)), []);
      CommonItemsInjective(a, b, x, y);
      assert x[0] == y[0] && x[1] == y[1] && x[2] == y[2];
      UintInjective(SignatureV(a.chainId, i), b.chainId);
    }
  }

  // ---------------------------------------------------------------------
  // Which field goes where.

  /** A number's octets: its digits without leading zeros, as a string. */
  function Number(n: U128): seq<Byte> { EncodeBytes(LeadingZeroTrim(ToBE(n, 16))) }

  /** They spell that number: empty string, single octet, or length prefix and digits. */
  lemma NumberSpells(n: U128)
    ensures n == 0 ==> Number(n) == [0x80]
    ensures 0 < n < 128 ==> Number(n) == [n]
    ensures n >= 128 ==>
              && 2 <= |Number(n)| <= 17 && Number(n)[0] == 0x80 + |Number(n)| - 1
              && Number(n)[1] != 0 && FromBE(Number(n)[1..]) == n
  {
    var digits := LeadingZeroTrim(ToBE(n, 16));
    Pow256Table();
    FromToBE(n, 16);
    TrimKeepsValue(ToBE(n, 16));
    TrimmedZero(digits);
    hide LeadingZeroTrim, ToBE;
    if |digits| == 1 {
      assert digits == [digits[0]] && [digits[0]][..0] == [];
    } else if |digits| > 1 {
      AtLeastTwoDigits(digits);
      assert Number(n) == [0x80 + |digits|] + digits;
    }
  }

  lemma AtLeastTwoDigits(bs: seq<Byte>)
    requires |bs| > 1 && bs[0] != 0
    ensures FromBE(bs) >= 256
  {
    LeadingDigit(bs[..|bs| - 1]);
  }

  lemma EncodeAllCons(item: Item, items: seq<Item>)
    ensures EncodeAll([item] + items) == Encode(item) + EncodeAll(items)
  {
    assert ([item] + items)[1..] == items;
  }

  lemma EncodeThree(i: Item, j: Item, k: Item, items: seq<Item>)
    ensures EncodeAll([i, j, k] + items) == Encode(i) + (Encode(j) + (Encode(k) + EncodeAll(items)))
  {
    hide Encode, EncodeAll;
    EncodeAllCons(k, items);
    EncodeAllCons(j, [k] + items);
    EncodeAllCons(i, [j] + ([k] + items));
    assert [i, j, k] + items == [i] + ([j] + ([k] + items));
  }

  lemma NoItems()
    ensures EncodeAll([]) == []
  {
  }

  /** The six fields both payloads carry, in order. */
  function CommonOctets(tx: UnsignedTx): seq<Byte> {
    Number(tx.nonce) + (Number(tx.gasPrice) + (Number(tx.gasLimit)
    + (([0x94] + tx.to) + (Number(tx.value) + EncodeBytes(tx.data)))))
  }

  lemma CommonLayout(tx: UnsignedTx, tail: seq<Item>)
    requires tx.Typed()
    ensures EncodeAll(CommonItems(tx) + tail) == CommonOctets(tx) + EncodeAll(tail)
  {
    hide EncodeAll, EncodeBytes, LeadingZeroTrim, ToBE;
    var first := [Uint(tx.nonce), Uint(tx.gasPrice), Uint(tx.gasLimit)];
    var second := [Bytes(tx.to), Uint(tx.value), Bytes(tx.data)];
    assert CommonItems(tx) + tail == first + (second + tail);
    EncodeThree(Uint(tx.nonce), Uint(tx.gasPrice), Uint(tx.gasLimit), second + tail);
    EncodeThree(Bytes(tx.to), Uint(tx.value), Bytes(tx.data), tail);
    AddressEncodes(tx.to);
  }

  lemma AddressEncodes(to: seq<Byte>)
    requires |to| == 20
    ensures EncodeBytes(to) == [0x94] + to
  {
  }

  lemma EncodeLastThree(i: Item, j: Item, k: Item)
    ensures EncodeAll([i, j, k]) == Encode(i) + (Encode(j) + Encode(k))
  {
    hide Encode, EncodeAll;
    EncodeThree(i, j, k, []);
    NoItems();
    assert [i, j, k] + [] == [i, j, k] && Encode(k) + [] == Encode(k);
  }

  /** What is hashed: the fields in order, the chain id, and two empty strings. */
  lemma SigningLayout(tx: UnsignedTx)
    requires tx.Typed()
    ensures var body := CommonOctets(tx) + (Number(tx.chainId) + [0x80, 0x80]);
            SigningPayload(tx) == LengthHeader(|body|, LIST_OFFSET) + body
  {
    hide EncodeAll, EncodeBytes, LeadingZeroTrim, ToBE, CommonOctets, LengthHeader, CommonItems;
    CommonLayout(tx, [Uint(tx.chainId), Uint(0), Uint(0)]);
    EncodeLastThree(Uint(tx.chainId), Uint(0), Uint(0));
    NumberSpells(0);
    assert [0x80] + [0x80] == [0x80, 0x80];
  }

  /** What is sent: the same fields in order, then `v`, `r` and `s`, with `v` reduced modulo 2^64. */
  lemma SignedLayout(tx: UnsignedTx, r: seq<Byte>, s: seq<Byte>, recoveryId: Byte)
    requires tx.Typed() && IsWord(r) && IsWord(s)
    ensures var v := (35 + 2 * tx.chainId + recoveryId) % 0x1_0000_0000_0000_0000;
            var body := CommonOctets(tx)
              + (Number(v) + (EncodeBytes(LeadingZeroTrim(r)) + EncodeBytes(LeadingZeroTrim(s))));
            SignedTxRlp(tx, r, s, recoveryId) == LengthHeader(|body|, LIST_OFFSET) + body
  {
    var v := SignatureV(tx.chainId, recoveryId);
    assert v == (35 + 2 * tx.chainId + recoveryId) % 0x1_0000_0000_0000_0000;
    hide EncodeAll, EncodeBytes, LeadingZeroTrim, ToBE, CommonOctets, LengthHeader, CommonItems, SignatureV;
    CommonLayout(tx, [Uint(v), BigUint(r), BigUint(s)]);
    EncodeLastThree(Uint(v), BigUint(r), BigUint(s));
  }

  // ---------------------------------------------------------------------
  // What a receiver reads.

  /** The string that spells this number without leading zeros. */
  predicate Spells(item: Item, n: nat) {
    item.Bytes? && FromBE(item.bytes) == n && (item.bytes != [] ==> item.bytes[0] != 0)
  }

  lemma UintSpells(n: U128)
    ensures Spells(Uint(n), n)
  {
    Pow256Table();
    FromToBE(n, 16);
    TrimKeepsValue(ToBE(n, 16));
  }

  lemma BigUintSpells(bs: seq<Byte>)
    ensures Spells(BigUint(bs), FromBE(bs))
  {
    TrimKeepsValue(bs);
  }

  /** The first six items are nonce, gas price, gas limit, address, value and data. */
  predicate ReadsCommon(items: seq<Item>, tx: UnsignedTx) {
    && |items| == 9
    && Spells(items[0], tx.nonce) && Spells(items[1], tx.gasPrice) && Spells(items[2], tx.gasLimit)
    && items[3] == Bytes(tx.to) && Spells(items[4], tx.value) && items[5] == Bytes(tx.data)
  }

  lemma CommonReads(tx: UnsignedTx, x: Item, y: Item, z: Item)
    ensures ReadsCommon(CommonItems(tx) + [x, y, z], tx)
  {
    hide Uint, Spells;
    UintSpells(tx.nonce);
    UintSpells(tx.gasPrice);
    UintSpells(tx.gasLimit);
    UintSpells(tx.value);
  }

  /** Decoding what is hashed gives the transaction's fields, its chain id, and two zeros. */
  lemma SigningReads(tx: UnsignedTx) returns (items: seq<Item>)
    requires tx.Typed()
    ensures Decode(SigningPayload(tx)) == Some(Decoded(List(items), []))
    ensures ReadsCommon(items, tx)
    ensures Spells(items[6], tx.chainId) && Spells(items[7], 0) && Spells(items[8], 0)
  {
    hide Decode, Encode, Fits, Uint, Spells, CommonItems;
    items := SigningItems(tx);
    SigningFits(tx);
    DecodeEncoded(List(items), []);
    assert SigningPayload(tx) + [] == SigningPayload(tx);
    CommonReads(tx, Uint(tx.chainId), Uint(0), Uint(0));
    UintSpells(tx.chainId);
    UintSpells(0);
    assert |CommonItems(tx)| == 6 by { SixCommon(tx); }
  }

  lemma SixCommon(tx: UnsignedTx)
    ensures |CommonItems(tx)| == 6
  {
  }

  /**
   * Decoding what is sent gives the fields, a `v` that is 35 plus twice the chain
   * id plus the recovery id, modulo 2^64, and the two halves of the signature.
   */
  lemma SignedReads(tx: UnsignedTx, r: seq<Byte>, s: seq<Byte>, recoveryId: Byte) returns (items: seq<Item>)
    requires tx.Typed() && IsWord(r) && IsWord(s)
    ensures Decode(SignedTxRlp(tx, r, s, recoveryId)) == Some(Decoded(List(items), []))
    ensures ReadsCommon(items, tx)
    ensures Spells(items[6], (35 + 2 * tx.chainId + recoveryId) % 0x1_0000_0000_0000_0000)
    ensures Spells(items[7], FromBE(r)) && Spells(items[8], FromBE(s))
  {
    var v := SignatureV(tx.chainId, recoveryId);
    assert v == (35 + 2 * tx.chainId + recoveryId) % 0x1_0000_0000_0000_0000;
    hide Decode, Encode, Fits, Uint, BigUint, Spells, CommonItems, SignatureV;
    items := SignedItems(tx, r, s, recoveryId);
    SignedFits(tx, r, s, recoveryId);
    DecodeEncoded(List(items), []);
    assert SignedTxRlp(tx, r, s, recoveryId) + [] == SignedTxRlp(tx, r, s, recoveryId);
    CommonReads(tx, Uint(v), BigUint(r), BigUint(s));
    UintSpells(v);
    BigUintSpells(r);
    BigUintSpells(s);
    SixCommon(tx);
  }

  /** With recovery id 0 or 1 and no overflow, a receiver finds both the chain id and the recovery id in `v`. */
  lemma ReplayProtected(tx: UnsignedTx, r: seq<Byte>, s: seq<Byte>, recoveryId: Byte) returns (items: seq<Item>)
    requires tx.Typed() && IsWord(r) && IsWord(s) && recoveryId <= 1
    requires 2 * tx.chainId + 35 + recoveryId < 0x1_0000_0000_0000_0000
    ensures Decode(SignedTxRlp(tx, r, s, recoveryId)) == Some(Decoded(List(items), []))
    ensures |items| == 9 && items[6].Bytes? && FromBE(items[6].bytes) >= 35
    ensures (FromBE(items[6].bytes) - 35) / 2 == tx.chainId
    ensures (FromBE(items[6].bytes) - 35) % 2 == recoveryId
  {
    hide Decode, SignedTxRlp, FromBE;
    items := SignedReads(tx, r, s, recoveryId);
  }
}
