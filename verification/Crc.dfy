/** The journal's hand-written CRC-32, bit by bit and octet by octet, and the error bursts it cannot miss. */
module Crc {
  import opened Bytes

  // ---------------------------------------------------------------------
  // Word operations, with the few bit-vector facts the proofs below need.
  // Those proofs hide the bodies and reason from these facts alone.

  const POLYNOMIAL: bv32 := 0xEDB8_8320

  function Xor(c: bv32, d: bv32): bv32 { c ^ d }

  /** One bit step of the checksum register. */
  function Step(c: bv32): bv32 {
    if c & 1 != 0 then (c >> 1) ^ POLYNOMIAL else c >> 1
  }

  function BitWord(b: bool): bv32 { if b then 1 else 0 }

  /** `w` moved up one place with `b` put below it. */
  function Push(w: bv32, b: bool): bv32 { (w << 1) | BitWord(b) }

  /** Every bit set in `w` is set in `mask`. */
  predicate Within(w: bv32, mask: bv32) { w & mask == w }

  /** The top bit is clear, so `Push` loses nothing. */
  predicate TopClear(w: bv32) { w & 0x7FFF_FFFF == w }

  /** Because the polynomial's top bit is set, no two registers step to the same one. */
  lemma StepInjective(c: bv32, d: bv32)
    requires Step(c) == Step(d)
    ensures c == d
  {
  }

  lemma XorInjective(c: bv32, d: bv32, e: bv32)
    requires Xor(c, d) == Xor(c, e) || Xor(d, c) == Xor(e, c)
    ensures d == e
  {
  }

  lemma XorZero(c: bv32)
    ensures Xor(c, 0) == c
  {
  }

  lemma ComplementIsXor(c: bv32)
    ensures !c == Xor(0xFFFF_FFFF, c)
  {
  }

  lemma PushInjective(v: bv32, a: bool, w: bv32, b: bool)
    requires TopClear(v) && TopClear(w) && Push(v, a) == Push(w, b)
    ensures a == b && v == w
  {
    assert Push(v, a) & 1 == BitWord(a) && Push(w, b) & 1 == BitWord(b);
  }

  lemma PushTrueWithin(w: bv32, mask: bv32)
    requires w & mask == w
    ensures ((w << 1) | 1) & ((mask << 1) | 1) == (w << 1) | 1
  {
  }

  lemma PushFalseWithin(w: bv32, mask: bv32)
    requires w & mask == w
    ensures ((w << 1) | 0) & ((mask << 1) | 1) == (w << 1) | 0
  {
  }

  lemma PushTrueIs(w: bv32)
    ensures Push(w, true) == (w << 1) | 1
  {
  }

  lemma PushFalseIs(w: bv32)
    ensures Push(w, false) == (w << 1) | 0
  {
  }

  lemma WithinIs(w: bv32, mask: bv32)
    ensures Within(w, mask) <==> w & mask == w
  {
  }

  lemma PushWithin(w: bv32, mask: bv32, b: bool)
    requires Within(w, mask)
    ensures Within(Push(w, b), Push(mask, true))
  {
    hide Push, Within;
    WithinIs(w, mask);
    PushTrueIs(mask);
    WithinIs(Push(w, b), Push(mask, true));
    if b {
      PushTrueIs(w);
      PushTrueWithin(w, mask);
    } else {
      PushFalseIs(w);
      PushFalseWithin(w, mask);
    }
  }

  lemma WithinZero(mask: bv32)
    ensures Within(0, mask)
  {
  }

  lemma WithinTransitive(u: bv32, v: bv32, w: bv32)
    requires Within(u, v) && Within(v, w)
    ensures Within(u, w)
  {
  }

  lemma LowBitXor(c: bv32, d: bv32)
    ensures (c ^ d) & 1 == (c & 1) ^ (d & 1)
    ensures (c ^ d) >> 1 == (c >> 1) ^ (d >> 1)
  {
  }

  lemma XorMoves(c: bv32, d: bv32, p: bv32)
    ensures (c ^ p) ^ d == (c ^ d) ^ p
  {
  }

  predicate Even(c: bv32) { c & 1 == 0 }

  function Up(w: bv32): bv32 { w << 1 }

  function Down(w: bv32): bv32 { w >> 1 }

  lemma UpDown(w: bv32)
    requires TopClear(w)
    ensures Even(Up(w)) && Down(Up(w)) == w
  {
  }

  lemma StepXorOddEven(c: bv32, d: bv32)
    requires c & 1 == 1 && Even(d)
    ensures Step(Xor(c, d)) == Xor(Step(c), Down(d))
  {
    LowBitXor(c, d);
    XorMoves(c >> 1, d >> 1, POLYNOMIAL);
  }

  lemma StepXorEvenEven(c: bv32, d: bv32)
    requires Even(c) && Even(d)
    ensures Step(Xor(c, d)) == Xor(Step(c), Down(d))
  {
    LowBitXor(c, d);
  }

  lemma StepXorEven(c: bv32, d: bv32)
    requires Even(d)
    ensures Step(Xor(c, d)) == Xor(Step(c), Down(d))
  {
    hide Step, Xor, Down;
    if c & 1 == 1 {
      StepXorOddEven(c, d);
    } else {
      StepXorEvenEven(c, d);
    }
  }

  lemma XorPushTrue(c: bv32, w: bv32)
    ensures Xor(c, Push(w, true)) == Xor(Xor(c, 1), Up(w))
  {
  }

  lemma XorPushFalse(c: bv32, w: bv32)
    ensures Xor(c, Push(w, false)) == Xor(Xor(c, 0), Up(w))
  {
  }

  lemma StepXorUp(c: bv32, w: bv32)
    requires TopClear(w)
    ensures Step(Xor(c, Up(w))) == Xor(Step(c), w)
  {
    hide Step, TopClear, Xor, Up, Down, Even;
    UpDown(w);
    StepXorEven(c, Up(w));
  }

  /** Xoring in a word and stepping is xoring in its low bit, stepping, then the rest. */
  lemma StepXorPush(c: bv32, w: bv32, b: bool)
    requires TopClear(w)
    ensures Step(Xor(c, Push(w, b))) == Xor(Step(Xor(c, BitWord(b))), w)
  {
    hide Step, TopClear, Xor, Push;
    if b {
      XorPushTrue(c, w);
      StepXorUp(Xor(c, 1), w);
    } else {
      XorPushFalse(c, w);
      StepXorUp(Xor(c, 0), w);
    }
  }

  // ---------------------------------------------------------------------
  // Repeated steps, and the register fed one message bit at a time.

  function StepTimes(n: nat, c: bv32): bv32 {
    if n == 0 then c else StepTimes(n - 1, Step(c))
  }

  lemma {:induction false} StepTimesInjective(n: nat, c: bv32, d: bv32)
    requires StepTimes(n, c) == StepTimes(n, d)
    ensures c == d
  {
    hide Step;
    if n > 0 {
      StepTimesInjective(n - 1, Step(c), Step(d));
      StepInjective(c, d);
    }
  }

  lemma {:induction false} StepTimesSnoc(n: nat, c: bv32)
    ensures StepTimes(n + 1, c) == Step(StepTimes(n, c))
  {
    hide Step;
    if n > 0 {
      StepTimesSnoc(n - 1, Step(c));
    }
  }

  function Feed(c: bv32, bits: seq<bool>): bv32
    decreases |bits|
  {
    if bits == [] then c else Feed(Step(Xor(c, BitWord(bits[0]))), bits[1..])
  }

  lemma {:induction false} FeedAppend(c: bv32, xs: seq<bool>, ys: seq<bool>)
    ensures Feed(c, xs + ys) == Feed(Feed(c, xs), ys)
    decreases |xs|
  {
    hide Step, Xor, BitWord;
    if xs == [] {
      assert xs + ys == ys;
    } else {
      assert (xs + ys)[1..] == xs[1..] + ys;
      FeedAppend(Step(Xor(c, BitWord(xs[0]))), xs[1..], ys);
    }
  }

  lemma {:induction false} FeedInjective(c: bv32, d: bv32, bits: seq<bool>)
    requires Feed(c, bits) == Feed(d, bits)
    ensures c == d
    decreases |bits|
  {
    hide Step, Xor, BitWord;
    if bits != [] {
      var w := BitWord(bits[0]);
      FeedInjective(Step(Xor(c, w)), Step(Xor(d, w)), bits[1..]);
      StepInjective(Xor(c, w), Xor(d, w));
      XorInjective(w, c, d);
    }
  }

  /** Bits as one word, the first bit least significant. */
  function Pack(bits: seq<bool>): bv32 {
    if bits == [] then 0 else Push(Pack(bits[1..]), bits[0])
  }

  function LowMask(k: nat): bv32 {
    if k == 0 then 0 else Push(LowMask(k - 1), true)
  }

  lemma {:induction false} LowMaskGrows(j: nat, k: nat)
    requires j <= k
    ensures Within(LowMask(j), LowMask(k))
  {
    hide Push, Within;
    if j > 0 {
      LowMaskGrows(j - 1, k - 1);
      PushWithin(LowMask(j - 1), LowMask(k - 1), true);
    } else {
      WithinZero(LowMask(k));
    }
  }

  lemma LowMask31()
    ensures LowMask(31) == 0x7FFF_FFFF
  {
    assert LowMask(8) == 0xFF;
    assert LowMask(16) == 0xFFFF;
    assert LowMask(24) == 0xFF_FFFF;
  }

  lemma {:induction false} PackWithinMask(bits: seq<bool>)
    ensures Within(Pack(bits), LowMask(|bits|))
  {
    hide Push, Within;
    if bits == [] {
      WithinZero(LowMask(0));
    } else {
      PackWithinMask(bits[1..]);
      PushWithin(Pack(bits[1..]), LowMask(|bits| - 1), bits[0]);
    }
  }

  /** Fewer than 32 packed bits leave the top bit free. */
  lemma PackTopClear(bits: seq<bool>)
    requires |bits| < 32
    ensures TopClear(Pack(bits))
  {
    hide Push, Pack, LowMask;
    PackWithinMask(bits);
    LowMaskGrows(|bits|, 31);
    LowMask31();
    WithinTransitive(Pack(bits), LowMask(|bits|), LowMask(31));
  }

  lemma {:induction false} PackInjective(xs: seq<bool>, ys: seq<bool>)
    requires |xs| == |ys| <= 32 && Pack(xs) == Pack(ys)
    ensures xs == ys
  {
    hide Push, TopClear;
    if xs != [] {
      PackTopClear(xs[1..]);
      PackTopClear(ys[1..]);
      PushInjective(Pack(xs[1..]), xs[0], Pack(ys[1..]), ys[0]);
      PackInjective(xs[1..], ys[1..]);
      assert xs == [xs[0]] + xs[1..] && ys == [ys[0]] + ys[1..];
    }
  }

  /** Feeding up to 32 bits is xoring them in at once and stepping that often. */
  lemma {:induction false} FeedPacked(c: bv32, bits: seq<bool>)
    requires |bits| <= 32
    ensures Feed(c, bits) == StepTimes(|bits|, Xor(c, Pack(bits)))
    decreases |bits|
  {
    hide Step, Xor, BitWord, Push, TopClear;
    if bits == [] {
      XorZero(c);
    } else {
      PackTopClear(bits[1..]);
      StepXorPush(c, Pack(bits[1..]), bits[0]);
      FeedPacked(Step(Xor(c, BitWord(bits[0]))), bits[1..]);
    }
  }

  // ---------------------------------------------------------------------
  // Message octets, least significant bit first.

  function LowBits(n: nat, k: nat): (bits: seq<bool>)
    ensures |bits| == k
  {
    if k == 0 then [] else [n % 2 == 1] + LowBits(n / 2, k - 1)
  }

  function Bits(data: seq<Byte>): (bits: seq<bool>)
    ensures |bits| == 8 * |data|
  {
    if data == [] then [] else LowBits(data[0], 8) + Bits(data[1..])
  }

  function ValueOctet(b: Byte): bv8 { b as bv8 }

  function Extend(o: bv8): bv32 { o as bv32 }

  function Widen(b: Byte): bv32 { Extend(ValueOctet(b)) }

  function OctetValue(o: bv8): Byte { o as int }

  lemma OctetRoundTrip(o: bv8)
    ensures ValueOctet(OctetValue(o)) == o
  {
  }

  lemma NextOctet(o: bv8)
    requires o != 255
    ensures OctetValue(o + 1) == OctetValue(o) + 1
  {
  }

  lemma LastOctet(o: bv8)
    requires OctetValue(o) < 255
    ensures o != 255
  {
  }

  lemma ZeroOctet()
    ensures OctetValue(0) == 0
  {
  }

  lemma {:induction false} SomeOctet(b: Byte) returns (o: bv8)
    ensures OctetValue(o) == b
  {
    hide OctetValue;
    if b == 0 {
      o := 0;
      ZeroOctet();
    } else {
      var p := SomeOctet(b - 1);
      LastOctet(p);
      NextOctet(p);
      o := p + 1;
    }
  }

  lemma ValueRoundTrip(b: Byte)
    ensures OctetValue(ValueOctet(b)) == b
  {
    hide ValueOctet, OctetValue;
    var o := SomeOctet(b);
    OctetRoundTrip(o);
  }

  lemma HalfOctet(o: bv8)
    ensures OctetValue(o >> 1) == OctetValue(o) / 2
  {
  }

  lemma OctetHigh(b: Byte)
    ensures ValueOctet(b) >> 1 == ValueOctet(b / 2)
  {
    hide ValueOctet, OctetValue;
    ValueRoundTrip(b);
    HalfOctet(ValueOctet(b));
    OctetRoundTrip(ValueOctet(b) >> 1);
  }

  lemma LowBit(o: bv8)
    ensures o & 1 == (if OctetValue(o) % 2 == 1 then 1 else 0)
  {
  }

  lemma OctetLow(b: Byte)
    ensures ValueOctet(b) & 1 == (if b % 2 == 1 then 1 else 0)
  {
    hide ValueOctet, OctetValue;
    ValueRoundTrip(b);
    LowBit(ValueOctet(b));
  }

  lemma ExtendHigh(o: bv8)
    ensures Extend(o) >> 1 == Extend(o >> 1)
  {
  }

  lemma ExtendLow(o: bv8)
    ensures o & 1 == 1 ==> Extend(o) & 1 == 1
    ensures o & 1 == 0 ==> Extend(o) & 1 == 0
  {
  }

  lemma WidenHigh(b: Byte)
    ensures Widen(b) >> 1 == Widen(b / 2)
  {
    hide ValueOctet, Extend;
    OctetHigh(b);
    ExtendHigh(ValueOctet(b));
  }

  lemma WidenLow(b: Byte)
    ensures Widen(b) & 1 == (if b % 2 == 1 then 1 else 0)
  {
    hide ValueOctet, Extend;
    OctetLow(b);
    ExtendLow(ValueOctet(b));
  }

  lemma PushHalves(w: bv32)
    ensures w & 1 == 1 ==> Push(w >> 1, true) == w
    ensures w & 1 == 0 ==> Push(w >> 1, false) == w
  {
  }

  function Pow2(k: nat): nat { if k == 0 then 1 else 2 * Pow2(k - 1) }

  lemma {:induction false} PackLowBits(b: Byte, k: nat)
    requires b < Pow2(k)
    ensures Pack(LowBits(b, k)) == Widen(b)
  {
    hide Widen, Push;
    if k > 0 {
      PackLowBits(b / 2, k - 1);
      WidenHigh(b);
      WidenLow(b);
      PushHalves(Widen(b));
      assert LowBits(b, k)[1..] == LowBits(b / 2, k - 1);
    } else {
      WidenZero();
    }
  }

  lemma WidenZero()
    ensures Widen(0) == 0
  {
  }

  lemma {:induction false} LowBitsInjective(m: nat, n: nat, k: nat)
    requires m < Pow2(k) && n < Pow2(k) && LowBits(m, k) == LowBits(n, k)
    ensures m == n
  {
    if k > 0 {
      assert LowBits(m, k)[0] == (m % 2 == 1) && LowBits(n, k)[0] == (n % 2 == 1);
      assert LowBits(m, k)[1..] == LowBits(m / 2, k - 1);
      assert LowBits(n, k)[1..] == LowBits(n / 2, k - 1);
      LowBitsInjective(m / 2, n / 2, k - 1);
    }
  }

  lemma {:induction false} BitsInjective(a: seq<Byte>, b: seq<Byte>)
    requires |a| == |b| && Bits(a) == Bits(b)
    ensures a == b
  {
    if a != [] {
      assert Bits(a)[..8] == LowBits(a[0], 8) && Bits(b)[..8] == LowBits(b[0], 8);
      assert Bits(a)[8..] == Bits(a[1..]) && Bits(b)[8..] == Bits(b[1..]);
      assert Pow2(8) == 256;
      LowBitsInjective(a[0], b[0], 8);
      BitsInjective(a[1..], b[1..]);
    }
  }

  /** One octet through the byte loop: xor it in, then eight steps. */
  function FeedByte(c: bv32, b: Byte): bv32 { StepTimes(8, Xor(c, Widen(b))) }

  function FeedBytes(c: bv32, data: seq<Byte>): bv32
    decreases |data|
  {
    if data == [] then c else FeedBytes(FeedByte(c, data[0]), data[1..])
  }

  lemma FeedByteIsBits(c: bv32, b: Byte)
    ensures FeedByte(c, b) == Feed(c, LowBits(b, 8))
  {
    hide Step, Xor, Widen, StepTimes, Feed, Pack;
    assert Pow2(8) == 256;
    PackLowBits(b, 8);
    FeedPacked(c, LowBits(b, 8));
  }

  lemma {:induction false} FeedBytesAreBits(c: bv32, data: seq<Byte>)
    ensures FeedBytes(c, data) == Feed(c, Bits(data))
    decreases |data|
  {
    hide Step, Xor, BitWord, FeedByte, LowBits;
    if data != [] {
      FeedByteIsBits(c, data[0]);
      FeedBytesAreBits(FeedByte(c, data[0]), data[1..]);
      FeedAppend(c, LowBits(data[0], 8), Bits(data[1..]));
    }
  }

  lemma {:induction false} FeedBytesSnoc(c: bv32, data: seq<Byte>, b: Byte)
    ensures FeedBytes(c, data + [b]) == FeedByte(FeedBytes(c, data), b)
    decreases |data|
  {
    hide FeedByte;
    if data == [] {
      assert data + [b] == [b];
    } else {
      assert (data + [b])[1..] == data[1..] + [b];
      FeedBytesSnoc(FeedByte(c, data[0]), data[1..], b);
    }
  }

  /** The checksum: the complement of the register once fed every message bit. */
  function Checksum(data: seq<Byte>): bv32 {
    Xor(0xFFFF_FFFF, Feed(0xFFFF_FFFF, Bits(data)))
  }

  /** The byte loop of the source: the register after one more octet. */
  method FeedOctet(c: bv32, b: Byte) returns (crc: bv32)
    ensures crc == FeedByte(c, b)
  {
    crc := Xor(c, Widen(b));
    for j := 0 to 8
      invariant crc == StepTimes(j, Xor(c, Widen(b)))
    {
      hide Xor, Widen;
      StepTimesSnoc(j, Xor(c, Widen(b)));
      crc := if crc & 1 != 0 then (crc >> 1) ^ 0xEDB8_8320 else crc >> 1;
    }
  }

  method Crc32(data: seq<Byte>) returns (r: bv32)
    ensures r == Checksum(data)
  {
    hide FeedByte, Feed, Bits, Xor;
    var crc: bv32 := 0xFFFF_FFFF;
    for i := 0 to |data|
      invariant crc == FeedBytes(0xFFFF_FFFF, data[..i])
    {
      FeedBytesSnoc(0xFFFF_FFFF, data[..i], data[i]);
      assert data[..i + 1] == data[..i] + [data[i]];
      crc := FeedOctet(crc, data[i]);
    }
    assert data[..|data|] == data;
    FeedBytesAreBits(0xFFFF_FFFF, data);
    ComplementIsXor(crc);
    r := !crc;
  }

  // ---------------------------------------------------------------------
  // The standard's check value: the checksum of the nine digits "123456789".

  lemma CheckValue()
    ensures Checksum([0x31, 0x32, 0x33, 0x34, 0x35, 0x36, 0x37, 0x38, 0x39]) == 0xCBF4_3926
  {
    assert FeedByte(0xFFFFFFFF, 0x31) == 0x7C231048;
    assert FeedByte(0x7C231048, 0x32) == 0xB0ACBB32;
    assert FeedByte(0xB0ACBB32, 0x33) == 0x77B79C2D;
    assert FeedByte(0x77B79C2D, 0x34) == 0x641C1F5C;
    assert FeedByte(0x641C1F5C, 0x35) == 0x340AC5E3;
    assert FeedByte(0x340AC5E3, 0x36) == 0xF68D2C9E;
    assert FeedByte(0xF68D2C9E, 0x37) == 0xAFFC9660;
    assert FeedByte(0xAFFC9660, 0x38) == 0x651F2550;
    assert FeedByte(0x651F2550, 0x39) == 0x340BC6D9;
    var data: seq<Byte> := [0x31, 0x32, 0x33, 0x34, 0x35, 0x36, 0x37, 0x38, 0x39];
    FeedBytesAreBits(0xFFFF_FFFF, data);
  }

  // ---------------------------------------------------------------------
  // Error detection.

  /** Outside the 32 bits from `start`, the two bit strings agree. */
  ghost predicate AgreeOutside(x: seq<bool>, y: seq<bool>, start: nat)
    requires |x| == |y|
  {
    forall i :: 0 <= i < |x| && !(start <= i < start + 32) ==> x[i] == y[i]
  }

  lemma FeedSplit(c: bv32, x: seq<bool>, i: nat, j: nat)
    requires i <= j <= |x|
    ensures Feed(c, x) == Feed(Feed(Feed(c, x[..i]), x[i..j]), x[j..])
  {
    hide Feed;
    assert x == x[..i] + x[i..] && x[i..] == x[i..j] + x[j..];
    FeedAppend(c, x[..i], x[i..]);
    FeedAppend(Feed(c, x[..i]), x[i..j], x[j..]);
  }

  lemma BurstPieces(x: seq<bool>, y: seq<bool>, start: nat) returns (i: nat, j: nat)
    requires |x| == |y| && x != y && AgreeOutside(x, y, start)
    ensures i <= j <= |x| && j - i <= 32
    ensures x[..i] == y[..i] && x[i..j] != y[i..j] && x[j..] == y[j..]
  {
    var k :| 0 <= k < |x| && x[k] != y[k];
    i := start;
    j := if i + 32 <= |x| then i + 32 else |x|;
    assert x[i..j][k - i] != y[i..j][k - i];
    SameTail(x, y, start, j);
  }

  lemma SameTail(x: seq<bool>, y: seq<bool>, start: nat, j: nat)
    requires |x| == |y| && j <= |x| && AgreeOutside(x, y, start)
    requires start + 32 <= j || j == |x|
    ensures x[j..] == y[j..]
  {
    var a, b := x[j..], y[j..];
    forall m | 0 <= m < |a| ensures a[m] == b[m] {
      assert a[m] == x[j + m] && b[m] == y[j + m];
    }
  }

  lemma BitBurst(c: bv32, x: seq<bool>, y: seq<bool>, start: nat)
    requires |x| == |y| && x != y && AgreeOutside(x, y, start)
    ensures Feed(c, x) != Feed(c, y)
  {
    hide Feed, Pack, StepTimes, Xor, AgreeOutside;
    var i, j := BurstPieces(x, y, start);
    FeedSplit(c, x, i, j);
    FeedSplit(c, y, i, j);
    if Feed(c, x) == Feed(c, y) {
      var r, u, v := Feed(c, x[..i]), x[i..j], y[i..j];
      FeedInjective(Feed(r, u), Feed(r, v), x[j..]);
      FeedPacked(r, u);
      FeedPacked(r, v);
      StepTimesInjective(j - i, Xor(r, Pack(u)), Xor(r, Pack(v)));
      XorInjective(r, Pack(u), Pack(v));
      PackInjective(u, v);
    }
  }

  /**
   * Two messages of one length that differ, and only within 32 consecutive
   * bits (least significant bit of each octet first), never share a checksum.
   */
  lemma BurstDetected(a: seq<Byte>, b: seq<Byte>, start: nat)
    requires |a| == |b| && a != b && AgreeOutside(Bits(a), Bits(b), start)
    ensures Checksum(a) != Checksum(b)
  {
    hide Feed, Bits, Xor;
    if Bits(a) == Bits(b) {
      BitsInjective(a, b);
    }
    BitBurst(0xFFFF_FFFF, Bits(a), Bits(b), start);
    if Checksum(a) == Checksum(b) {
      XorInjective(0xFFFF_FFFF, Feed(0xFFFF_FFFF, Bits(a)), Feed(0xFFFF_FFFF, Bits(b)));
    }
  }

  // ---------------------------------------------------------------------
  // The checksum field: four octets, most significant first.

  function LowOctet(c: bv32): bv8 { (c & 0xFF) as bv8 }

  function Octet(c: bv32): Byte { OctetValue(LowOctet(c)) }

  lemma OctetWiden(c: bv32)
    ensures Widen(Octet(c)) == c & 0xFF
  {
    hide OctetValue, ValueOctet;
    OctetRoundTrip(LowOctet(c));
  }

  function WordToBE(c: bv32): (bs: seq<Byte>)
    ensures |bs| == 4
  {
    [Octet(c >> 24), Octet(c >> 16), Octet(c >> 8), Octet(c)]
  }

  function WordFromBE(bs: seq<Byte>): bv32
    requires |bs| == 4
  {
    (Widen(bs[0]) << 24) | (Widen(bs[1]) << 16) | (Widen(bs[2]) << 8) | Widen(bs[3])
  }

  lemma FourOctets(c: bv32)
    ensures (((c >> 24) & 0xFF) << 24) | (((c >> 16) & 0xFF) << 16) | (((c >> 8) & 0xFF) << 8) | (c & 0xFF) == c
  {
  }

  lemma WordRoundTrip(c: bv32)
    ensures WordFromBE(WordToBE(c)) == c
  {
    hide Widen, Octet;
    OctetWiden(c >> 24);
    OctetWiden(c >> 16);
    OctetWiden(c >> 8);
    OctetWiden(c);
    FourOctets(c);
  }

  /** The checksum field holds the word's octets from the most significant down. */
  lemma WordOctets(c: bv32)
    ensures |WordToBE(c)| == 4
    ensures Widen(WordToBE(c)[0]) == c >> 24 && Widen(WordToBE(c)[1]) == (c >> 16) & 0xFF
    ensures Widen(WordToBE(c)[2]) == (c >> 8) & 0xFF && Widen(WordToBE(c)[3]) == c & 0xFF
  {
    hide Widen, Octet;
    OctetWiden(c >> 24);
    OctetWiden(c >> 16);
    OctetWiden(c >> 8);
    OctetWiden(c);
    TopOctet(c);
  }

  lemma TopOctet(c: bv32)
    ensures (c >> 24) & 0xFF == c >> 24
  {
  }
}
