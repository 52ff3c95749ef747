/** Well-formed UTF-8 (table 3-7 of the Unicode Standard), as a Rust `String` demands. */
module Utf8 {
  import opened Bytes

  predicate Continuation(b: Byte) { 0x80 <= b < 0xC0 }

  /** The octets the scalar value at the head of `s` takes, or 0 if none is well formed. */
  function HeadLength(s: seq<Byte>): (n: nat)
    ensures n <= |s|
    ensures n > 0 ==> !Continuation(s[0])
    ensures forall k :: 0 < k < n ==> Continuation(s[k])
  {
    if s == [] then 0
    else if s[0] < 0x80 then 1
    else if 0xC2 <= s[0] < 0xE0 then
      if |s| >= 2 && Continuation(s[1]) then 2 else 0
    else if 0xE0 <= s[0] < 0xF0 then
      if && |s| >= 3 && Continuation(s[1]) && Continuation(s[2])
         && (s[0] == 0xE0 ==> 0xA0 <= s[1]) && (s[0] == 0xED ==> s[1] < 0xA0) then 3 else 0
    else if 0xF0 <= s[0] < 0xF5 then
      if && |s| >= 4 && Continuation(s[1]) && Continuation(s[2]) && Continuation(s[3])
         && (s[0] == 0xF0 ==> 0x90 <= s[1]) && (s[0] == 0xF4 ==> s[1] < 0x90) then 4 else 0
    else 0
  }

  predicate Valid(s: seq<Byte>)
    decreases |s|
  {
    s == [] || (HeadLength(s) > 0 && Valid(s[HeadLength(s)..]))
  }

  type Text = s: seq<Byte> | Valid(s)

  lemma HeadOfPrefix(s: seq<Byte>, n: nat)
    requires 0 < n <= |s| && HeadLength(s) > 0
    ensures HeadLength(s[..n]) == if HeadLength(s) <= n then HeadLength(s) else 0
  {
  }

  /** Cutting a text leaves a text exactly when the cut is at a character boundary. */
  lemma {:induction false} CutIsValid(s: Text, n: nat)
    requires n < |s|
    ensures Valid(s[..n]) <==> !Continuation(s[n])
    decreases |s|
  {
    var h := HeadLength(s);
    if n > 0 {
      HeadOfPrefix(s, n);
      if h <= n {
        assert s[..n][h..] == s[h..][..n - h];
        CutIsValid(s[h..], n - h);
      }
    }
  }

  // ---------------------------------------------------------------------
  // Valid texts are exactly the encodings of sequences of scalar values.

  predicate IsScalar(c: nat) { c < 0xD800 || 0xE000 <= c < 0x11_0000 }

  /** The octets of one scalar value (table 3-6 of the Unicode Standard). */
  function EncodeScalar(c: nat): (bs: seq<Byte>)
    requires IsScalar(c)
    ensures |bs| > 0
  {
    if c < 0x80 then [c]
    else if c < 0x800 then [0xC0 + c / 0x40, 0x80 + c % 0x40]
    else if c < 0x1_0000 then [0xE0 + c / 0x1000, 0x80 + c / 0x40 % 0x40, 0x80 + c % 0x40]
    else [0xF0 + c / 0x4_0000, 0x80 + c / 0x1000 % 0x40, 0x80 + c / 0x40 % 0x40, 0x80 + c % 0x40]
  }

  predicate AllScalars(cs: seq<nat>) {
    forall i :: 0 <= i < |cs| ==> IsScalar(cs[i])
  }

  function EncodeText(cs: seq<nat>): seq<Byte>
    requires AllScalars(cs)
  {
    if cs == [] then [] else EncodeScalar(cs[0]) + EncodeText(cs[1..])
  }

  lemma ScalarIsHead(c: nat, rest: seq<Byte>)
    requires IsScalar(c)
    ensures HeadLength(EncodeScalar(c) + rest) == |EncodeScalar(c)|
  {
  }

  lemma TwoBack(a: int, b: int)
    requires 0xC2 <= a < 0xE0 && 0x80 <= b < 0xC0
    ensures var c := (a - 0xC0) * 0x40 + (b - 0x80);
            0x80 <= c < 0x800 && 0xC0 + c / 0x40 == a && 0x80 + c % 0x40 == b
  {
  }

  lemma ThreeBack(a: int, b: int, d: int)
    requires 0xE0 <= a < 0xF0 && 0x80 <= b < 0xC0 && 0x80 <= d < 0xC0
    requires (a == 0xE0 ==> 0xA0 <= b) && (a == 0xED ==> b < 0xA0)
    ensures var c := (a - 0xE0) * 0x1000 + (b - 0x80) * 0x40 + (d - 0x80);
            && 0x800 <= c < 0x1_0000 && !(0xD800 <= c < 0xE000)
            && 0xE0 + c / 0x1000 == a && 0x80 + c / 0x40 % 0x40 == b && 0x80 + c % 0x40 == d
  {
    var c := (a - 0xE0) * 0x1000 + (b - 0x80) * 0x40 + (d - 0x80);
    assert c / 0x40 == (a - 0xE0) * 0x40 + (b - 0x80);
  }

  lemma FourBack(a: int, b: int, d: int, e: int)
    requires 0xF0 <= a < 0xF5 && 0x80 <= b < 0xC0 && 0x80 <= d < 0xC0 && 0x80 <= e < 0xC0
    requires (a == 0xF0 ==> 0x90 <= b) && (a == 0xF4 ==> b < 0x90)
    ensures var c := (a - 0xF0) * 0x4_0000 + (b - 0x80) * 0x1000 + (d - 0x80) * 0x40 + (e - 0x80);
            && 0x1_0000 <= c < 0x11_0000
            && 0xF0 + c / 0x4_0000 == a && 0x80 + c / 0x1000 % 0x40 == b
            && 0x80 + c / 0x40 % 0x40 == d && 0x80 + c % 0x40 == e
  {
    var c := (a - 0xF0) * 0x4_0000 + (b - 0x80) * 0x1000 + (d - 0x80) * 0x40 + (e - 0x80);
    assert c / 0x40 == (a - 0xF0) * 0x1000 + (b - 0x80) * 0x40 + (d - 0x80);
    assert c / 0x1000 == (a - 0xF0) * 0x40 + (b - 0x80);
  }

  function At(s: seq<Byte>, k: nat): int
    requires k < |s|
  {
    s[k]
  }

  lemma TwoScalar(a: Byte, b: Byte) returns (c: nat)
    requires HeadLength([a, b]) == 2
    ensures IsScalar(c) && EncodeScalar(c) == [a, b]
  {
    TwoBack(a, b);
    c := (At([a], 0) - 0xC0) * 0x40 + (At([b], 0) - 0x80);
  }

  lemma ThreeScalar(a: Byte, b: Byte, d: Byte) returns (c: nat)
    requires HeadLength([a, b, d]) == 3
    ensures IsScalar(c) && EncodeScalar(c) == [a, b, d]
  {
    ThreeBack(a, b, d);
    c := (At([a], 0) - 0xE0) * 0x1000 + (At([b], 0) - 0x80) * 0x40 + (At([d], 0) - 0x80);
  }

  lemma FourScalar(a: Byte, b: Byte, d: Byte, e: Byte) returns (c: nat)
    requires HeadLength([a, b, d, e]) == 4
    ensures IsScalar(c) && EncodeScalar(c) == [a, b, d, e]
  {
    FourBack(a, b, d, e);
    c := (At([a], 0) - 0xF0) * 0x4_0000 + (At([b], 0) - 0x80) * 0x1000 + (At([d], 0) - 0x80) * 0x40
      + (At([e], 0) - 0x80);
  }

  /** The scalar value whose octets stand at the head of `s`. */
  lemma HeadIsScalar(s: seq<Byte>) returns (c: nat)
    requires HeadLength(s) > 0
    ensures IsScalar(c) && s[..HeadLength(s)] == EncodeScalar(c)
  {
    var n := HeadLength(s);
    HeadOfPrefix(s, n);
    assert n <= 4;
    if n == 1 {
      c := s[0];
    } else if n == 2 {
      assert s[..2] == [s[0], s[1]];
      hide EncodeScalar, HeadLength;
      c := TwoScalar(s[0], s[1]);
    } else if n == 3 {
      assert s[..3] == [s[0], s[1], s[2]];
      hide EncodeScalar, HeadLength;
      c := ThreeScalar(s[0], s[1], s[2]);
    } else {
      assert s[..4] == [s[0], s[1], s[2], s[3]];
      hide EncodeScalar, HeadLength;
      c := FourScalar(s[0], s[1], s[2], s[3]);
    }
  }

  lemma EncodeTextCons(c: nat, cs: seq<nat>)
    requires IsScalar(c) && AllScalars(cs)
    ensures AllScalars([c] + cs) && EncodeText([c] + cs) == EncodeScalar(c) + EncodeText(cs)
  {
    hide EncodeScalar;
    assert ([c] + cs)[1..] == cs;
  }

  lemma {:induction false} EncodedIsValid(cs: seq<nat>)
    requires AllScalars(cs)
    ensures Valid(EncodeText(cs))
  {
    if cs != [] {
      var head, rest := EncodeScalar(cs[0]), EncodeText(cs[1..]);
      EncodedIsValid(cs[1..]);
      ScalarIsHead(cs[0], rest);
      hide EncodeScalar;
      assert (head + rest)[|head|..] == rest;
    }
  }

  lemma ValidTail(s: seq<Byte>)
    requires Valid(s) && s != []
    ensures HeadLength(s) > 0 && Valid(s[HeadLength(s)..])
    ensures s == s[..HeadLength(s)] + s[HeadLength(s)..]
  {
    hide HeadLength;
  }

  lemma NoText()
    ensures AllScalars([]) && EncodeText([]) == []
  {
  }

  lemma {:induction false} ValidIsEncoded(s: seq<Byte>) returns (cs: seq<nat>)
    requires Valid(s)
    ensures AllScalars(cs) && EncodeText(cs) == s
    decreases |s|
  {
    hide Valid, EncodeScalar, HeadLength, EncodeText, IsScalar, AllScalars;
    if s == [] {
      cs := [];
      NoText();
    } else {
      ValidTail(s);
      var c := HeadIsScalar(s);
      var rest := ValidIsEncoded(s[HeadLength(s)..]);
      EncodeTextCons(c, rest);
      cs := [c] + rest;
    }
  }

  /** An octet string is a text exactly when it encodes some sequence of scalar values. */
  lemma ValidExactly(s: seq<Byte>)
    ensures Valid(s) <==> exists cs :: AllScalars(cs) && EncodeText(cs) == s
  {
    if Valid(s) {
      var cs := ValidIsEncoded(s);
    }
    if cs :| AllScalars(cs) && EncodeText(cs) == s {
      EncodedIsValid(cs);
    }
  }
}
