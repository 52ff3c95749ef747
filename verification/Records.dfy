/** One journal record: payload layout, framing, and the way back. */
module Records {
  import opened Bytes
  import opened History
  import Crc
  import Utf8

  const TAG_PAIR: Byte := 1
  const TAG_REVERT: Byte := 2
  const META_SIZE := 9
  const MAX_REASON := 0xFFFF

  /** The integer widths of the source's fields. */
  predicate Encodable(e: HistoryEntry) {
    match e
    case ConfirmedPair(p, r) => -TWO_127 <= p < TWO_127 && -TWO_127 <= r < TWO_127
    case RevertedTx(ev) =>
      && |ev.txHash| == 32
      && ev.blockNumber < TWO_64 && ev.gasUsed < TWO_64
      && ev.effectiveGasPrice < TWO_128
  }

  predicate AllEncodable(tl: Timeline) {
    forall i :: 0 <= i < |tl| ==> Encodable(tl[i])
  }

  function Tag(e: HistoryEntry): Byte {
    if e.ConfirmedPair? then TAG_PAIR else TAG_REVERT
  }

  /** The octets of the reason that are written: at most 65535 of them. */
  function WrittenReason(reason: Option<Utf8.Text>): (bs: seq<Byte>)
    ensures |bs| <= MAX_REASON
  {
    match reason
    case None => []
    case Some(s) => if |s| <= MAX_REASON then s else s[..MAX_REASON]
  }

  function RevertPayload(ev: RevertEvent, timestamp: U64): seq<Byte> {
    var reason := WrittenReason(ev.reason);
    ev.txHash + ToBE(ev.blockNumber, 8) + ToBE(ev.gasUsed, 8) + ToBE(ev.effectiveGasPrice, 16)
    + ToBE(timestamp, 8) + ToBE(|reason|, 2) + reason
  }

  function Payload(e: HistoryEntry, timestamp: U64): (bs: seq<Byte>)
    requires Encodable(e)
    ensures |bs| < TWO_32
  {
    match e
    case ConfirmedPair(p, r) => I128ToBE(p) + I128ToBE(r) + ToBE(timestamp, 8)
    case RevertedTx(ev) => RevertPayload(ev, timestamp)
  }

  /** Tag, payload length, checksum, payload. */
  function Seal(tag: Byte, payload: seq<Byte>): (f: seq<Byte>)
    ensures |f| == META_SIZE + |payload|
  {
    [tag] + ToBE(|payload|, 4) + Crc.WordToBE(Crc.Checksum(payload)) + payload
  }

  function Frame(e: HistoryEntry, timestamp: U64): seq<Byte>
    requires Encodable(e)
  {
    Seal(Tag(e), Payload(e, timestamp))
  }

  function ReadReason(payload: seq<Byte>): Option<Utf8.Text>
    requires |payload| >= 74
  {
    var n := FromBE(payload[72..74]);
    if n > 0 && |payload| >= 74 + n && Utf8.Valid(payload[74..74 + n]) then Some(payload[74..74 + n])
    else None
  }

  /** What recovery makes of a payload whose checksum matched. */
  function DecodePayload(tag: Byte, payload: seq<Byte>): Option<HistoryEntry> {
    if tag == TAG_PAIR && |payload| == 40 then
      Some(ConfirmedPair(I128FromBE(payload[0..16]), I128FromBE(payload[16..32])))
    else if tag == TAG_REVERT && |payload| >= 74 then
      Some(RevertedTx(RevertEvent(
        payload[0..32],
        FromBE(payload[32..40]),
        ReadReason(payload),
        FromBE(payload[40..48]),
        FromBE(payload[48..64]))))
    else None
  }

  // ---------------------------------------------------------------------
  // What a record keeps of an entry.

  function NormalReason(reason: Option<Utf8.Text>): Option<Utf8.Text> {
    var bs := WrittenReason(reason);
    if bs != [] && Utf8.Valid(bs) then Some(bs) else None
  }

  /** The entry as recovery will see it: only the revert reason can change. */
  function Normalise(e: HistoryEntry): HistoryEntry {
    match e
    case ConfirmedPair(_, _) => e
    case RevertedTx(ev) => RevertedTx(ev.(reason := NormalReason(ev.reason)))
  }

  function NormaliseAll(tl: Timeline): (nl: Timeline)
    ensures |nl| == |tl| && forall i :: 0 <= i < |tl| ==> nl[i] == Normalise(tl[i])
  {
    seq(|tl|, i requires 0 <= i < |tl| => Normalise(tl[i]))
  }

  /** A reason is kept unchanged exactly when it is non-empty and at most 65535 octets long. */
  lemma ReasonKeptExactly(s: Utf8.Text)
    ensures NormalReason(Some(s)) == Some(s) <==> 0 < |s| <= MAX_REASON
  {
  }

  /** A longer one is cut if octet 65535 starts a character, and otherwise lost altogether. */
  lemma LongReasonCutOrLost(s: Utf8.Text)
    requires |s| > MAX_REASON
    ensures NormalReason(Some(s)) == if Utf8.Continuation(s[MAX_REASON]) then None else Some(s[..MAX_REASON])
  {
    Utf8.CutIsValid(s, MAX_REASON);
  }

  lemma NormaliseIdempotent(e: HistoryEntry)
    ensures Normalise(Normalise(e)) == Normalise(e)
    ensures Encodable(e) ==> Encodable(Normalise(e))
  {
  }

  // ---------------------------------------------------------------------
  // The octets of a record.

  lemma FortyOctets()
    ensures ToBE(40, 4) == [0, 0, 0, 40]
  {
    BEDigits(40, 4);
    Pow256Table();
    assert Pow256(1) == 256 && Pow256(3) == 256 * Pow256(2) && Pow256(0) == 1;
  }

  /** A pair: tag 1, length 40, checksum, both profits modulo 2^128, the time. */
  lemma PairOctets(p: I128, r: I128, timestamp: U64)
    ensures var body := ToBE((p + TWO_128) % TWO_128, 16) + ToBE((r + TWO_128) % TWO_128, 16) + ToBE(timestamp, 8);
            Frame(ConfirmedPair(p, r), timestamp) == [1, 0, 0, 0, 40] + Crc.WordToBE(Crc.Checksum(body)) + body
  {
    hide Crc.WordToBE, Crc.Checksum, ToBE;
    FortyOctets();
    assert I128ToBE(p) == ToBE((p + TWO_128) % TWO_128, 16);
    assert I128ToBE(r) == ToBE((r + TWO_128) % TWO_128, 16);
  }

  /** A revert: tag 2, length, checksum, hash, block, gas used, gas price, the time, the reason's length and octets. */
  lemma RevertOctets(ev: RevertEvent, timestamp: U64)
    requires Encodable(RevertedTx(ev))
    ensures var reason := match ev.reason
                case None => []
                case Some(s) => if |s| <= 65535 then s else s[..65535];
            var body := ev.txHash + ToBE(ev.blockNumber, 8) + ToBE(ev.gasUsed, 8)
                + ToBE(ev.effectiveGasPrice, 16) + ToBE(timestamp, 8) + ToBE(|reason|, 2) + reason;
            && |body| == 74 + |reason|
            && Frame(RevertedTx(ev), timestamp)
               == [2] + ToBE(|body|, 4) + Crc.WordToBE(Crc.Checksum(body)) + body
  {
    hide Crc.WordToBE, Crc.Checksum, ToBE;
  }

  /** Which payloads are records: 40 octets under tag 1, at least 74 under tag 2, no others. */
  lemma DecodesExactly(tag: Byte, payload: seq<Byte>)
    ensures DecodePayload(tag, payload).Some? <==> (tag == 1 && |payload| == 40) || (tag == 2 && |payload| >= 74)
  {
  }

  /** A pair payload decodes to the pair whose profits its first two fields encode. */
  lemma PairFields(payload: seq<Byte>, p: I128, r: I128)
    requires |payload| == 40
    ensures DecodePayload(1, payload) == Some(ConfirmedPair(p, r))
            <==> payload[..16] == I128ToBE(p) && payload[16..32] == I128ToBE(r)
  {
    assert payload[0..16] == payload[..16];
    I128Encoded(payload[..16], p);
    I128Encoded(payload[16..32], r);
  }

  lemma I128Encoded(bs: seq<Byte>, x: I128)
    requires |bs| == 16
    ensures I128FromBE(bs) == x <==> bs == I128ToBE(x)
  {
    I128RoundTrip(x);
    if I128FromBE(bs) == x {
      var n := FromBE(bs);
      ToFromBE(bs);
      Pow256Table();
      assert n == if x < 0 then x + TWO_128 else x;
    }
  }

  /**
   * A revert payload decodes to the event whose fields it encodes; its reason is
   * absent when empty, longer than the payload, or not valid UTF-8.
   */
  lemma RevertFields(payload: seq<Byte>)
    requires |payload| >= 74
    ensures DecodePayload(2, payload).Some? && DecodePayload(2, payload).value.RevertedTx?
    ensures var ev := DecodePayload(2, payload).value.event;
            && payload[..32] == ev.txHash && payload[32..40] == ToBE(ev.blockNumber, 8)
            && payload[40..48] == ToBE(ev.gasUsed, 8) && payload[48..64] == ToBE(ev.effectiveGasPrice, 16)
            && var n := FromBE(payload[72..74]);
            ev.reason == if 0 < n <= |payload| - 74 && Utf8.Valid(payload[74..74 + n])
                         then Some(payload[74..74 + n]) else None
  {
    hide ToBE, FromBE;
    assert payload[0..32] == payload[..32];
    ToFromBE(payload[32..40]);
    ToFromBE(payload[40..48]);
    ToFromBE(payload[48..64]);
  }

  // ---------------------------------------------------------------------
  // Round trip.

  lemma PairRoundTrip(p: I128, r: I128, timestamp: U64)
    ensures var e := ConfirmedPair(p, r);
            DecodePayload(Tag(e), Payload(e, timestamp)) == Some(e)
  {
    var payload := Payload(ConfirmedPair(p, r), timestamp);
    assert payload[0..16] == I128ToBE(p) && payload[16..32] == I128ToBE(r);
    I128RoundTrip(p);
    I128RoundTrip(r);
  }

  /** Where each field of a revert payload lies. */
  lemma RevertLayout(ev: RevertEvent, timestamp: U64)
    requires Encodable(RevertedTx(ev))
    ensures var bs, reason := RevertPayload(ev, timestamp), WrittenReason(ev.reason);
            && |bs| == 74 + |reason|
            && bs[0..32] == ev.txHash
            && bs[32..40] == ToBE(ev.blockNumber, 8)
            && bs[40..48] == ToBE(ev.gasUsed, 8)
            && bs[48..64] == ToBE(ev.effectiveGasPrice, 16)
            && bs[72..74] == ToBE(|reason|, 2)
            && bs[74..74 + |reason|] == reason
  {
  }

  lemma RevertRoundTrip(ev: RevertEvent, timestamp: U64)
    requires Encodable(RevertedTx(ev))
    ensures DecodePayload(TAG_REVERT, RevertPayload(ev, timestamp)) == Some(Normalise(RevertedTx(ev)))
  {
    RevertLayout(ev, timestamp);
    hide RevertPayload;
    Pow256Table();
    FromToBE(ev.blockNumber, 8);
    FromToBE(ev.gasUsed, 8);
    FromToBE(ev.effectiveGasPrice, 16);
    FromToBE(|WrittenReason(ev.reason)|, 2);
  }

  /**
   * Decoding an encoded entry returns it, but for its revert reason: an empty
   * one comes back absent, an overlong one cut or absent.
   */
  lemma RecordRoundTrip(e: HistoryEntry, timestamp: U64)
    requires Encodable(e)
    ensures DecodePayload(Tag(e), Payload(e, timestamp)) == Some(Normalise(e))
  {
    match e {
      case ConfirmedPair(p, r) => PairRoundTrip(p, r, timestamp);
      case RevertedTx(ev) => RevertRoundTrip(ev, timestamp);
    }
  }

  lemma DecodedIsEncodable(tag: Byte, payload: seq<Byte>)
    requires DecodePayload(tag, payload).Some?
    ensures Encodable(DecodePayload(tag, payload).value)
    ensures Normalise(DecodePayload(tag, payload).value) == DecodePayload(tag, payload).value
  {
    Pow256Table();
    if tag == TAG_REVERT {
      assert FromBE(payload[72..74]) < Pow256(2);
    }
  }
}
