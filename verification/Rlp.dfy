/** The RLP encoder of the example bot, and a strict decoder for it. */
module Rlp {
  // The decoder is that of Appendix B of the Ethereum Yellow Paper.

  import opened Bytes
  import opened History

  datatype Item = Bytes(bytes: seq<Byte>) | List(items: seq<Item>)

  const STRING_OFFSET: Byte := 0x80
  const LIST_OFFSET: Byte := 0xc0

  function LeadingZeroTrim(bs: seq<Byte>): (t: seq<Byte>)
    ensures |t| <= |bs|
    ensures t != [] ==> t[0] != 0
  {
    if bs == [] || bs[0] != 0 then bs else LeadingZeroTrim(bs[1..])
  }

  /** The header byte addition never leaves the byte range: it is at most 0xc0 + 55 + 8 = 255. */
  function LengthHeader(len: nat, offset: Byte): (h: seq<Byte>)
    requires offset <= LIST_OFFSET
    ensures |h| >= 1
  {
    if len < 56 then [offset + len]
    else
      var lenBytes := LeadingZeroTrim(ToBE(len, 8));
      [offset + 55 + |lenBytes|] + lenBytes
  }

  function EncodeBytes(bs: seq<Byte>): seq<Byte> {
    if |bs| == 1 && bs[0] < 0x80 then bs else LengthHeader(|bs|, STRING_OFFSET) + bs
  }

  function Encode(item: Item): seq<Byte>
    decreases item, 1
  {
    match item
    case Bytes(bs) => EncodeBytes(bs)
    case List(items) => var payload := EncodeAll(items); LengthHeader(|payload|, LIST_OFFSET) + payload
  }

  function EncodeAll(items: seq<Item>): seq<Byte>
    decreases items, 0
  {
    if items == [] then [] else Encode(items[0]) + EncodeAll(items[1..])
  }

  /** Every length that is encoded fits the source's 64-bit `usize`. */
  predicate Fits(item: Item)
    decreases item, 1
  {
    match item
    case Bytes(bs) => |bs| < TWO_64
    case List(items) => AllFit(items) && |EncodeAll(items)| < TWO_64
  }

  predicate AllFit(items: seq<Item>)
    decreases items, 0
  {
    items == [] || (Fits(items[0]) && AllFit(items[1..]))
  }

  // ---------------------------------------------------------------------
  // The encoding, octet by octet.

  /** `len` digits, as few as it takes. */
  predicate ShortestDigits(digits: seq<Byte>, n: nat) {
    digits != [] && digits[0] != 0 && FromBE(digits) == n
  }

  /** A byte string: itself if a single octet below 0x80, else length and contents. */
  lemma StringOctets(bs: seq<Byte>) returns (digits: seq<Byte>)
    requires |bs| < TWO_64
    ensures bs == [] ==> Encode(Bytes(bs)) == [0x80]
    ensures |bs| == 1 && bs[0] < 0x80 ==> Encode(Bytes(bs)) == bs
    ensures |bs| == 1 && bs[0] >= 0x80 ==> Encode(Bytes(bs)) == [0x81] + bs
    ensures 1 < |bs| <= 55 ==> Encode(Bytes(bs)) == [0x80 + |bs|] + bs
    ensures |bs| > 55 ==>
              && ShortestDigits(digits, |bs|) && |digits| <= 8
              && Encode(Bytes(bs)) == [0xb7 + |digits|] + digits + bs
  {
    digits := LengthDigits(|bs|);
  }

  /** A list: the lengths of its items' encodings added up, then those encodings. */
  lemma ListOctets(items: seq<Item>) returns (digits: seq<Byte>)
    requires |EncodeAll(items)| < TWO_64
    ensures var payload := EncodeAll(items);
            && (|payload| <= 55 ==> Encode(List(items)) == [0xc0 + |payload|] + payload)
            && (|payload| > 55 ==>
                  && ShortestDigits(digits, |payload|) && |digits| <= 8
                  && Encode(List(items)) == [0xf7 + |digits|] + digits + payload)
  {
    hide EncodeAll;
    digits := LengthDigits(|EncodeAll(items)|);
  }

  /** Items of a list stand one after the other. */
  lemma ItemsInOrder(first: Item, rest: seq<Item>)
    ensures EncodeAll([]) == [] && EncodeAll([first] + rest) == Encode(first) + EncodeAll(rest)
  {
    assert ([first] + rest)[1..] == rest;
  }

  lemma LengthDigits(n: nat) returns (digits: seq<Byte>)
    requires n < TWO_64
    ensures digits == LeadingZeroTrim(ToBE(n, 8)) && |digits| <= 8
    ensures n > 0 ==> ShortestDigits(digits, n)
  {
    digits := LeadingZeroTrim(ToBE(n, 8));
    Pow256Table();
    FromToBE(n, 8);
    TrimKeepsValue(ToBE(n, 8));
  }

  // ---------------------------------------------------------------------
  // The encoder as the source runs it.

  lemma {:induction false} EncodeAllSnoc(items: seq<Item>, item: Item)
    ensures EncodeAll(items + [item]) == EncodeAll(items) + Encode(item)
  {
    if items == [] {
      assert items + [item] == [item] && [item][1..] == [];
    } else {
      assert (items + [item])[1..] == items[1..] + [item];
      EncodeAllSnoc(items[1..], item);
    }
  }

  method EncodeItem(item: Item) returns (out: seq<Byte>)
    ensures out == Encode(item)
    decreases item
  {
    match item {
      case Bytes(bs) =>
        if |bs| == 1 && bs[0] < 0x80 {
          return bs;
        }
        out := LengthHeader(|bs|, STRING_OFFSET);
        out := out + bs;
      case List(items) =>
        var payload: seq<Byte> := [];
        for i := 0 to |items|
          invariant payload == EncodeAll(items[..i])
        {
          hide Encode;
          var one := EncodeItem(items[i]);
          payload := payload + one;
          EncodeAllSnoc(items[..i], items[i]);
          assert items[..i + 1] == items[..i] + [items[i]];
        }
        assert items[..|items|] == items;
        out := LengthHeader(|payload|, LIST_OFFSET) + payload;
    }
  }

  // ---------------------------------------------------------------------
  // The strict decoder.

  /** Where an item's contents start, how long they are, and whether they are a list. */
  datatype Head = Head(isList: bool, start: nat, len: nat)

  /** A header in canonical form whose contents are all there; a lone small byte is its own contents. */
  function ReadHead(bs: seq<Byte>): (h: Option<Head>)
    ensures h.Some? ==> 0 < h.value.start + h.value.len <= |bs|
    ensures h.Some? && h.value.isList ==> h.value.start > 0
  {
    if bs == [] then None
    else if bs[0] < 0x80 then Some(Head(false, 0, 1))
    else
      var isList := bs[0] >= LIST_OFFSET;
      var size := bs[0] - if isList then LIST_OFFSET else STRING_OFFSET;
      if size < 56 then
        if |bs| >= 1 + size then Some(Head(isList, 1, size)) else None
      else
        var k := size - 55;
        if |bs| < 1 + k || bs[1] == 0 then None
        else
          var len := FromBE(bs[1..1 + k]);
          if len < 56 || |bs| < 1 + k + len then None else Some(Head(isList, 1 + k, len))
  }

  datatype Decoded = Decoded(item: Item, rest: seq<Byte>)

  /** The item at the front of `bs` and what follows it. */
  function Decode(bs: seq<Byte>): (r: Option<Decoded>)
    ensures r.Some? ==> |r.value.rest| < |bs|
    decreases |bs|, 0
  {
    match ReadHead(bs)
    case None => None
    case Some(h) =>
      var contents, rest := bs[h.start..h.start + h.len], bs[h.start + h.len..];
      if h.isList then
        match DecodeAll(contents)
        case None => None
        case Some(items) => Some(Decoded(List(items), rest))
      else if h.start == 1 && h.len == 1 && contents[0] < 0x80 then None
      else Some(Decoded(Bytes(contents), rest))
  }

  function DecodeAll(bs: seq<Byte>): Option<seq<Item>>
    decreases |bs|, 1
  {
    if bs == [] then Some([])
    else match Decode(bs)
      case None => None
      case Some(d) =>
        match DecodeAll(d.rest)
        case None => None
        case Some(items) => Some([d.item] + items)
  }

  // ---------------------------------------------------------------------
  // Length octets.

  lemma {:induction false} TrimKeepsValue(bs: seq<Byte>)
    ensures FromBE(LeadingZeroTrim(bs)) == FromBE(bs)
  {
    if bs != [] && bs[0] == 0 {
      DropLeadingZero(bs);
      TrimKeepsValue(bs[1..]);
    }
  }

  lemma {:induction false} DropLeadingZero(bs: seq<Byte>)
    requires bs != [] && bs[0] == 0
    ensures FromBE(bs[1..]) == FromBE(bs)
    decreases |bs|
  {
    if |bs| == 1 {
      assert bs[..0] == [];
    } else {
      var n := |bs| - 1;
      DropLeadingZero(bs[..n]);
      assert bs[..n][1..] == bs[1..][..n - 1];
    }
  }

  /** The unique spelling of a number without leading zeros. */
  lemma {:induction false} TrimUnique(bs: seq<Byte>, k: nat)
    requires bs != [] && bs[0] != 0 && |bs| <= k
    ensures LeadingZeroTrim(ToBE(FromBE(bs), k)) == bs
  {
    if k == |bs| {
      ToFromBE(bs);
    } else {
      TrimUnique(bs, k - 1);
      FromBEFits(bs, k - 1);
      WiderBE(FromBE(bs), k - 1);
    }
  }

  lemma FromBEFits(bs: seq<Byte>, k: nat)
    requires |bs| <= k
    ensures FromBE(bs) < Pow256(k)
  {
    Pow256Monotone(|bs|, k);
  }

  lemma {:induction false} WiderBE(n: nat, k: nat)
    requires n < Pow256(k)
    ensures ToBE(n, k + 1) == [0] + ToBE(n, k)
  {
    if k > 0 {
      WiderBE(n / 256, k - 1);
    }
  }

  /** The length octets of a long header: no leading zero, at least one, and they read back. */
  lemma LongLength(len: nat)
    requires 56 <= len < TWO_64
    ensures var lb := LeadingZeroTrim(ToBE(len, 8));
            1 <= |lb| <= 8 && lb[0] != 0 && FromBE(lb) == len
  {
    Pow256Table();
    FromToBE(len, 8);
    TrimKeepsValue(ToBE(len, 8));
  }

  lemma HeaderReads(len: nat, isList: bool, contents: seq<Byte>, rest: seq<Byte>)
    requires len < TWO_64 && |contents| == len
    ensures var h := LengthHeader(len, if isList then LIST_OFFSET else STRING_OFFSET);
            ReadHead(h + contents + rest) == Some(Head(isList, |h|, len))
  {
    hide FromBE, LeadingZeroTrim, ToBE;
    var offset := if isList then LIST_OFFSET else STRING_OFFSET;
    var h := LengthHeader(len, offset);
    var bs := h + contents + rest;
    assert bs[0] == h[0];
    if len >= 56 {
      LongLength(len);
      var lb := LeadingZeroTrim(ToBE(len, 8));
      assert bs[1..1 + |lb|] == lb;
      assert bs[1] == lb[0];
    }
  }

  lemma HeadIsHeader(bs: seq<Byte>)
    requires ReadHead(bs).Some? && ReadHead(bs).value.start > 0
    ensures var h := ReadHead(bs).value;
            && h.len < TWO_64
            && bs[..h.start] == LengthHeader(h.len, if h.isList then LIST_OFFSET else STRING_OFFSET)
  {
    hide LeadingZeroTrim, ToBE;
    var h := ReadHead(bs).value;
    if h.start > 1 {
      var lb := bs[1..h.start];
      TrimUnique(lb, 8);
      FromBEFits(lb, 8);
      Pow256Table();
      assert bs[..h.start] == [bs[0]] + lb;
    } else {
      assert bs[..1] == [bs[0]];
    }
  }

  // ---------------------------------------------------------------------
  // Round trips.

  /** Decoding any bytes that begin with an encoded item returns that item and the rest. */
  lemma {:induction false} DecodeEncoded(item: Item, rest: seq<Byte>)
    requires Fits(item)
    ensures Decode(Encode(item) + rest) == Some(Decoded(item, rest))
    decreases item, 1
  {
    hide ReadHead, LengthHeader;
    match item {
      case Bytes(bs) =>
        if |bs| == 1 && bs[0] < 0x80 {
          SmallByteReads(bs[0], rest);
          assert bs == [bs[0]] && (bs + rest)[0..1] == bs && (bs + rest)[1..] == rest;
        } else {
          HeaderReads(|bs|, false, bs, rest);
          Pieces(LengthHeader(|bs|, STRING_OFFSET), bs, rest);
        }
      case List(items) =>
        var payload := EncodeAll(items);
        HeaderReads(|payload|, true, payload, rest);
        Pieces(LengthHeader(|payload|, LIST_OFFSET), payload, rest);
        DecodeAllEncoded(items);
    }
  }

  lemma SmallByteReads(b: Byte, rest: seq<Byte>)
    requires b < 0x80
    ensures ReadHead([b] + rest) == Some(Head(false, 0, 1))
  {
  }

  lemma Pieces(h: seq<Byte>, c: seq<Byte>, r: seq<Byte>)
    ensures var bs := h + c + r;
            bs[|h|..|h| + |c|] == c && bs[|h| + |c|..] == r && h + c + r == (h + c) + r
  {
  }

  lemma {:induction false} DecodeAllEncoded(items: seq<Item>)
    requires AllFit(items)
    ensures DecodeAll(EncodeAll(items)) == Some(items)
    decreases items, 0
  {
    hide Encode, Decode;
    if items != [] {
      DecodeEncoded(items[0], EncodeAll(items[1..]));
      DecodeAllEncoded(items[1..]);
      assert [items[0]] + items[1..] == items;
    }
  }

  lemma HeadPieces(bs: seq<Byte>, h: Head)
    requires ReadHead(bs) == Some(h)
    ensures bs == bs[..h.start] + bs[h.start..h.start + h.len] + bs[h.start + h.len..]
    ensures h.start == 0 ==> !h.isList && h.len == 1 && bs[0] < 0x80 && bs[..0] == []
    ensures h.start > 1 ==> h.len >= 56
    ensures h.start > 0 ==>
              h.len < TWO_64
              && bs[..h.start] == LengthHeader(h.len, if h.isList then LIST_OFFSET else STRING_OFFSET)
  {
    if h.start > 0 {
      HeadIsHeader(bs);
    }
    hide LengthHeader;
  }

  lemma LoneByte(bs: seq<Byte>)
    requires |bs| == 1 && bs[0] < 0x80
    ensures EncodeBytes(bs) == bs
  {
  }

  /** Whatever the decoder accepts is the encoding of what it returns, followed by the rest. */
  lemma {:induction false} EncodeDecoded(bs: seq<Byte>)
    requires Decode(bs).Some?
    ensures Fits(Decode(bs).value.item)
    ensures Encode(Decode(bs).value.item) + Decode(bs).value.rest == bs
    decreases |bs|, 0
  {
    hide LengthHeader, ReadHead;
    var h := ReadHead(bs).value;
    var contents := bs[h.start..h.start + h.len];
    HeadPieces(bs, h);
    if h.isList {
      EncodeDecodedAll(contents);
    } else if h.start == 0 {
      assert contents[0] == bs[0] && bs[..h.start] + contents == contents;
      LoneByte(contents);
    }
  }

  lemma {:induction false} EncodeDecodedAll(bs: seq<Byte>)
    requires DecodeAll(bs).Some?
    ensures AllFit(DecodeAll(bs).value)
    ensures EncodeAll(DecodeAll(bs).value) == bs
    decreases |bs|, 1
  {
    hide Encode, Decode, Fits;
    if bs != [] {
      var d := Decode(bs).value;
      EncodeDecoded(bs);
      EncodeDecodedAll(d.rest);
      var items := DecodeAll(d.rest).value;
      assert ([d.item] + items)[1..] == items;
    }
  }

  /** No two item-and-suffix pairs encode to the same bytes. */
  lemma UniquelyDecodable(a: Item, x: seq<Byte>, b: Item, y: seq<Byte>)
    requires Fits(a) && Fits(b) && Encode(a) + x == Encode(b) + y
    ensures a == b && x == y
  {
    hide Encode, Decode, Fits;
    DecodeEncoded(a, x);
    DecodeEncoded(b, y);
  }

  /** The strict decoder accepts, to the end of input, exactly the encoder's outputs, and inverts them. */
  lemma DecoderAcceptsExactlyEncodings(bs: seq<Byte>, item: Item)
    ensures Decode(bs) == Some(Decoded(item, [])) <==> Fits(item) && Encode(item) == bs
  {
    hide Encode, Decode, Fits;
    if Decode(bs) == Some(Decoded(item, [])) {
      EncodeDecoded(bs);
      assert Encode(item) + [] == Encode(item);
    }
    if Fits(item) && Encode(item) == bs {
      DecodeEncoded(item, []);
      assert Encode(item) + [] == bs;
    }
  }
}
