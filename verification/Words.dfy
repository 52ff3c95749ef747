/**
 * 64-bit words as numbers, and counting in them: what the generator's period
 * rests on. A word's value is put together from its halves, so that carries and
 * injectivity are proved on 8-bit words and lifted to 16, 32 and 64.
 */
module Words {
  import opened Bytes

  // ---------------------------------------------------------------------
  // The numeric value of a word, by halves.

  function Value8(x: bv8): (n: nat)
    ensures n < 0x100
  {
    x as int
  }

  lemma Increment8(x: bv8)
    requires x != 0xFF
    ensures Value8(x + 1) == Value8(x) + 1
  {
  }

  lemma Extremes8()
    ensures Value8(0) == 0 && Value8(0xFF) == 0x100 - 1
  {
  }

  lemma ValueInjective8(x: bv8, y: bv8)
    ensures Value8(x) == Value8(y) ==> x == y
  {
  }

  function Low16(x: bv16): bv8 { (x & 0xFF) as bv8 }

  function High16(x: bv16): bv8 { (x >> 8) as bv8 }

  function Value16(x: bv16): (n: nat)
    ensures n < TWO_16
  {
    Value8(Low16(x)) + 0x100 * Value8(High16(x))
  }

  lemma Carry16(x: bv16)
    requires x != 0xFFFF
    ensures Low16(x) != 0xFF ==> Low16(x + 1) == Low16(x) + 1 && High16(x + 1) == High16(x)
    ensures Low16(x) == 0xFF ==>
              Low16(x + 1) == 0 && High16(x) != 0xFF && High16(x + 1) == High16(x) + 1
  {
  }

  lemma Increment16(x: bv16)
    requires x != 0xFFFF
    ensures Value16(x + 1) == Value16(x) + 1
  {
    hide Value8, Low16, High16;
    Carry16(x);
    Extremes8();
    if Low16(x) != 0xFF {
      Increment8(Low16(x));
    } else {
      Increment8(High16(x));
    }
  }

  lemma Extremes16()
    ensures Value16(0) == 0 && Value16(0xFFFF) == TWO_16 - 1
  {
    hide Value8;
    Extremes8();
    assert Low16(0) == 0 && High16(0) == 0;
    assert Low16(0xFFFF) == 0xFF && High16(0xFFFF) == 0xFF;
  }

  lemma Halves16(x: bv16, y: bv16)
    requires Low16(x) == Low16(y) && High16(x) == High16(y)
    ensures x == y
  {
  }

  lemma ValueInjective16(x: bv16, y: bv16)
    ensures Value16(x) == Value16(y) ==> x == y
  {
    hide Value8, Low16, High16;
    ValueInjective8(Low16(x), Low16(y));
    ValueInjective8(High16(x), High16(y));
    if Value16(x) == Value16(y) {
      Halves16(x, y);
    }
  }

  function Low32(x: bv32): bv16 { (x & 0xFFFF) as bv16 }

  function High32(x: bv32): bv16 { (x >> 16) as bv16 }

  function Value32(x: bv32): (n: nat)
    ensures n < TWO_32
  {
    Value16(Low32(x)) + TWO_16 * Value16(High32(x))
  }

  lemma Carry32(x: bv32)
    requires x != 0xFFFF_FFFF
    ensures Low32(x) != 0xFFFF ==> Low32(x + 1) == Low32(x) + 1 && High32(x + 1) == High32(x)
    ensures Low32(x) == 0xFFFF ==>
              Low32(x + 1) == 0 && High32(x) != 0xFFFF && High32(x + 1) == High32(x) + 1
  {
  }

  lemma Increment32(x: bv32)
    requires x != 0xFFFF_FFFF
    ensures Value32(x + 1) == Value32(x) + 1
  {
    hide Value16, Low32, High32;
    Carry32(x);
    Extremes16();
    if Low32(x) != 0xFFFF {
      Increment16(Low32(x));
    } else {
      Increment16(High32(x));
    }
  }

  lemma Extremes32()
    ensures Value32(0) == 0 && Value32(0xFFFF_FFFF) == TWO_32 - 1
  {
    hide Value16;
    Extremes16();
    assert Low32(0) == 0 && High32(0) == 0;
    assert Low32(0xFFFF_FFFF) == 0xFFFF && High32(0xFFFF_FFFF) == 0xFFFF;
  }

  lemma Halves32(x: bv32, y: bv32)
    requires Low32(x) == Low32(y) && High32(x) == High32(y)
    ensures x == y
  {
  }

  lemma ValueInjective32(x: bv32, y: bv32)
    ensures Value32(x) == Value32(y) ==> x == y
  {
    hide Value16, Low32, High32;
    ValueInjective16(Low32(x), Low32(y));
    ValueInjective16(High32(x), High32(y));
    if Value32(x) == Value32(y) {
      Halves32(x, y);
    }
  }

  function Low64(x: bv64): bv32 { (x & 0xFFFF_FFFF) as bv32 }

  function High64(x: bv64): bv32 { (x >> 32) as bv32 }

  function Value64(x: bv64): (n: nat)
    ensures n < TWO_64
  {
    Value32(Low64(x)) + TWO_32 * Value32(High64(x))
  }

  lemma Carry64(x: bv64)
    requires x != 0xFFFF_FFFF_FFFF_FFFF
    ensures Low64(x) != 0xFFFF_FFFF ==> Low64(x + 1) == Low64(x) + 1 && High64(x + 1) == High64(x)
    ensures Low64(x) == 0xFFFF_FFFF ==>
              Low64(x + 1) == 0 && High64(x) != 0xFFFF_FFFF && High64(x + 1) == High64(x) + 1
  {
  }

  lemma Increment64(x: bv64)
    requires x != 0xFFFF_FFFF_FFFF_FFFF
    ensures Value64(x + 1) == Value64(x) + 1
  {
    hide Value32, Low64, High64;
    Carry64(x);
    Extremes32();
    if Low64(x) != 0xFFFF_FFFF {
      Increment32(Low64(x));
    } else {
      Increment32(High64(x));
    }
  }

  lemma Extremes64()
    ensures Value64(0) == 0 && Value64(0xFFFF_FFFF_FFFF_FFFF) == TWO_64 - 1
  {
    hide Value32;
    Extremes32();
    assert Low64(0) == 0 && High64(0) == 0;
    assert Low64(0xFFFF_FFFF_FFFF_FFFF) == 0xFFFF_FFFF && High64(0xFFFF_FFFF_FFFF_FFFF) == 0xFFFF_FFFF;
  }

  lemma Halves64(x: bv64, y: bv64)
    requires Low64(x) == Low64(y) && High64(x) == High64(y)
    ensures x == y
  {
  }

  lemma ValueInjective64(x: bv64, y: bv64)
    ensures Value64(x) == Value64(y) ==> x == y
  {
    hide Value32, Low64, High64;
    ValueInjective32(Low64(x), Low64(y));
    ValueInjective32(High64(x), High64(y));
    if Value64(x) == Value64(y) {
      Halves64(x, y);
    }
  }

  // ---------------------------------------------------------------------
  // Counting up from zero passes through every word once.

  function Succ(x: bv64): bv64 { x + 1 }

  function Count(n: nat): bv64 {
    if n == 0 then 0 else Succ(Count(n - 1))
  }

  lemma {:induction false} CountValue(n: nat)
    requires n < TWO_64
    ensures Value64(Count(n)) == n
  {
    hide Value64;
    Extremes64();
    if n > 0 {
      CountValue(n - 1);
      Increment64(Count(n - 1));
    }
  }

  lemma CountOnto(x: bv64)
    ensures Count(Value64(x)) == x
  {
    hide Value64, Count;
    CountValue(Value64(x));
    ValueInjective64(Count(Value64(x)), x);
  }
}
