/** Recovery of a log body: what is kept of arbitrary, torn or corrupted bytes. */
module Recovery {
  import opened Bytes
  import opened History
  import opened Records
  import Crc

  // ---------------------------------------------------------------------
  // Valid frames, declaratively: the sealed form of a payload that decodes.

  ghost predicate IsFrame(f: seq<Byte>, e: HistoryEntry) {
    exists tag, payload :: IsSealed(f, tag, payload, e)
  }

  predicate IsSealed(f: seq<Byte>, tag: Byte, payload: seq<Byte>, e: HistoryEntry) {
    |payload| < TWO_32 && WellSealed(f, tag, payload) && DecodePayload(tag, payload) == Some(e)
  }

  /** `f` carries this tag and payload, their length, and a checksum field that reads as it should. */
  predicate WellSealed(f: seq<Byte>, tag: Byte, payload: seq<Byte>) {
    && |f| == META_SIZE + |payload|
    && f[0] == tag
    && FromBE(f[1..5]) == |payload|
    && Crc.WordFromBE(f[5..9]) == Crc.Checksum(payload)
    && f[9..] == payload
  }

  function Concat(fs: seq<seq<Byte>>): seq<Byte> {
    if fs == [] then [] else fs[0] + Concat(fs[1..])
  }

  /** The byte string is the concatenation of these frames, which hold these entries. */
  ghost predicate IsLog(fs: seq<seq<Byte>>, es: Timeline) {
    |fs| == |es| && forall i :: 0 <= i < |fs| ==> IsFrame(fs[i], es[i])
  }

  // ---------------------------------------------------------------------
  // Reading from the front, as the recovery loop does.

  datatype Parsed = Torn | Rejected | Record(entry: HistoryEntry, size: nat)

  function ParseFrame(bs: seq<Byte>): (r: Parsed)
    ensures r.Record? ==> META_SIZE <= r.size <= |bs|
  {
    if |bs| < META_SIZE then Torn
    else
      var payloadLen := FromBE(bs[1..5]);
      if |bs| < META_SIZE + payloadLen then Torn
      else
        var payload := bs[9..9 + payloadLen];
        if Crc.Checksum(payload) != Crc.WordFromBE(bs[5..9]) then Rejected
        else match DecodePayload(bs[0], payload)
          case None => Rejected
          case Some(e) => Record(e, META_SIZE + payloadLen)
  }

  datatype Recovered = Recovered(entries: Timeline, kept: nat)

  /** The entries recovered from a log body and the length that is kept of it. */
  function Scan(bs: seq<Byte>): (r: Recovered)
    ensures r.kept <= |bs|
    decreases |bs|
  {
    match ParseFrame(bs)
    case Record(e, n) =>
      var rest := Scan(bs[n..]);
      Recovered([e] + rest.entries, n + rest.kept)
    case _ => Recovered([], 0)
  }

  // ---------------------------------------------------------------------
  // Frames are exactly what parses whole.

  lemma FrameParses(f: seq<Byte>, e: HistoryEntry, rest: seq<Byte>)
    requires IsFrame(f, e)
    ensures ParseFrame(f + rest) == Record(e, |f|)
  {
    hide Crc.Checksum, Crc.WordFromBE, DecodePayload, FromBE;
    var tag, payload :| IsSealed(f, tag, payload, e);
    var bs := f + rest;
    assert bs[1..5] == f[1..5] && bs[5..9] == f[5..9];
    assert bs[9..9 + |payload|] == payload;
  }

  lemma ParsedIsFrame(bs: seq<Byte>)
    requires ParseFrame(bs).Record?
    ensures IsFrame(bs[..ParseFrame(bs).size], ParseFrame(bs).entry)
  {
    hide Crc.Checksum, Crc.WordFromBE, DecodePayload;
    Pow256Table();
    var n := ParseFrame(bs).size;
    var f, payload := bs[..n], bs[9..n];
    assert f[1..5] == bs[1..5] && f[5..9] == bs[5..9] && f[9..] == payload;
    assert IsSealed(f, bs[0], payload, ParseFrame(bs).entry);
  }

  /** A sealed record is a frame for the entry as recovery will see it. */
  lemma FrameIsFrame(e: HistoryEntry, timestamp: U64)
    requires Encodable(e)
    ensures IsFrame(Frame(e, timestamp), Normalise(e))
  {
    hide Crc.Checksum, Crc.WordToBE, Crc.WordFromBE, DecodePayload, Payload;
    var payload := Payload(e, timestamp);
    var f := Frame(e, timestamp);
    assert f[1..5] == ToBE(|payload|, 4) && f[5..9] == Crc.WordToBE(Crc.Checksum(payload)) && f[9..] == payload;
    Pow256Table();
    FromToBE(|payload|, 4);
    Crc.WordRoundTrip(Crc.Checksum(payload));
    RecordRoundTrip(e, timestamp);
    assert IsSealed(f, Tag(e), payload, Normalise(e));
  }

  lemma {:induction false} ConcatAppend(fs: seq<seq<Byte>>, gs: seq<seq<Byte>>)
    ensures Concat(fs + gs) == Concat(fs) + Concat(gs)
  {
    if fs == [] {
      assert fs + gs == gs;
    } else {
      assert (fs + gs)[1..] == fs[1..] + gs;
      ConcatAppend(fs[1..], gs);
    }
  }

  lemma ConcatOne(f: seq<Byte>)
    ensures Concat([f]) == f
  {
    assert Concat([f][1..]) == [];
  }

  // ---------------------------------------------------------------------
  // Scanning past leading frames.

  lemma ScanStep(f: seq<Byte>, e: HistoryEntry, tail: seq<Byte>)
    requires IsFrame(f, e)
    ensures Scan(f + tail) == Recovered([e] + Scan(tail).entries, |f| + Scan(tail).kept)
  {
    FrameParses(f, e, tail);
    hide IsFrame, ParseFrame;
    assert (f + tail)[|f|..] == tail;
  }

  lemma {:induction false} ScanPast(fs: seq<seq<Byte>>, es: Timeline, rest: seq<Byte>)
    requires IsLog(fs, es)
    ensures Scan(Concat(fs) + rest)
            == Recovered(es + Scan(rest).entries, |Concat(fs)| + Scan(rest).kept)
  {
    hide IsFrame, Scan;
    if fs == [] {
      assert Concat(fs) + rest == rest && es + Scan(rest).entries == Scan(rest).entries;
    } else {
      var tail := Concat(fs[1..]) + rest;
      assert Concat(fs) + rest == fs[0] + tail;
      ScanStep(fs[0], es[0], tail);
      ScanPast(fs[1..], es[1..], rest);
      assert [es[0]] + (es[1..] + Scan(rest).entries) == es + Scan(rest).entries;
    }
  }

  /** Recovery stops right after leading frames when what follows is no record. */
  lemma ScanStops(fs: seq<seq<Byte>>, es: Timeline, rest: seq<Byte>)
    requires IsLog(fs, es) && !ParseFrame(rest).Record?
    ensures Scan(Concat(fs) + rest) == Recovered(es, |Concat(fs)|)
  {
    hide IsLog, ParseFrame;
    ScanPast(fs, es, rest);
    assert es + [] == es;
  }

  /** The kept part of any bytes is a log of the recovered entries. */
  lemma {:induction false} ScanSplits(bs: seq<Byte>) returns (fs: seq<seq<Byte>>)
    ensures IsLog(fs, Scan(bs).entries) && Concat(fs) == bs[..Scan(bs).kept]
    decreases |bs|
  {
    hide ParseFrame, IsFrame;
    var p := ParseFrame(bs);
    if p.Record? {
      ParsedIsFrame(bs);
      hide IsLog, Concat;
      var f, tail := bs[..p.size], bs[p.size..];
      var rest := ScanSplits(tail);
      fs := [f] + rest;
      LogCons(f, p.entry, rest, Scan(tail).entries);
      TakeSplits(bs, p.size, Scan(tail).kept);
    } else {
      fs := [];
    }
  }

  lemma TakeSplits<T>(s: seq<T>, m: nat, n: nat)
    requires m + n <= |s|
    ensures s[..m + n] == s[..m] + s[m..][..n]
  {
  }

  lemma LogCons(f: seq<Byte>, e: HistoryEntry, fs: seq<seq<Byte>>, es: Timeline)
    requires IsFrame(f, e) && IsLog(fs, es)
    ensures IsLog([f] + fs, [e] + es) && Concat([f] + fs) == f + Concat(fs)
  {
    hide IsFrame;
    assert ([f] + fs)[1..] == fs;
  }

  /**
   * The kept length is the greatest at which the bytes split into valid
   * frames, and any shorter split holds a prefix of the recovered entries.
   */
  lemma KeptIsGreatest(bs: seq<Byte>, n: nat, fs: seq<seq<Byte>>, es: Timeline)
    requires n <= |bs| && IsLog(fs, es) && Concat(fs) == bs[..n]
    ensures n <= Scan(bs).kept && es <= Scan(bs).entries
  {
    hide IsLog, Scan;
    assert bs == Concat(fs) + bs[n..];
    ScanPast(fs, es, bs[n..]);
  }

  /** Scanning what was kept gives the same entries and keeps all of it. */
  lemma ScanIdempotent(bs: seq<Byte>)
    ensures Scan(bs[..Scan(bs).kept]) == Scan(bs)
  {
    hide IsLog;
    var fs := ScanSplits(bs);
    var es := Scan(bs).entries;
    assert Scan([]) == Recovered([], 0);
    hide Scan;
    ScanPast(fs, es, []);
    assert Concat(fs) + [] == Concat(fs) && es + [] == es;
  }

  /** Two splits of one byte string into frames hold the same entries. */
  lemma LogUnique(fs: seq<seq<Byte>>, es: Timeline, gs: seq<seq<Byte>>, ds: Timeline)
    requires IsLog(fs, es) && IsLog(gs, ds) && Concat(fs) == Concat(gs)
    ensures es == ds
  {
    hide IsLog;
    assert Scan([]) == Recovered([], 0);
    hide Scan;
    ScanPast(fs, es, []);
    ScanPast(gs, ds, []);
    assert es + [] == es && ds + [] == ds;
  }

  // ---------------------------------------------------------------------
  // Torn tails.

  /** A frame cut short does not parse. */
  lemma TornFrame(f: seq<Byte>, e: HistoryEntry, n: nat)
    requires IsFrame(f, e) && n < |f|
    ensures ParseFrame(f[..n]) == Torn
  {
    hide Crc.Checksum, Crc.WordFromBE, DecodePayload, FromBE;
    var tag, payload :| IsSealed(f, tag, payload, e);
    if n >= META_SIZE {
      assert f[..n][1..5] == f[1..5];
    }
  }

  /**
   * A log cut at any byte recovers exactly the records whose frames are
   * complete, and keeps exactly their bytes.
   */
  lemma {:induction false} CutAnywhere(fs: seq<seq<Byte>>, es: Timeline, n: nat) returns (m: nat)
    requires IsLog(fs, es) && n <= |Concat(fs)|
    ensures m <= |fs| && |Concat(fs[..m])| <= n
    ensures m < |fs| ==> n < |Concat(fs[..m + 1])|
    ensures Scan(Concat(fs)[..n]) == Recovered(es[..m], |Concat(fs[..m])|)
  {
    hide IsFrame, ParseFrame, Scan;
    if fs == [] {
      m := 0;
      ScanStopsEmpty();
      assert Concat(fs)[..n] == [] && fs[..0] == [] && es[..0] == [];
    } else if n < |fs[0]| {
      m := 0;
      CutFirst(fs[0], es[0], n);
      assert Concat(fs)[..n] == fs[0][..n];
      assert fs[..0] == [] && es[..0] == [] && fs[..1] == [fs[0]];
      ConcatOne(fs[0]);
    } else {
      m := CutAnywhere(fs[1..], es[1..], n - |fs[0]|);
      var tail := Concat(fs[1..])[..n - |fs[0]|];
      assert Concat(fs)[..n] == fs[0] + tail;
      hide Concat;
      ScanStep(fs[0], es[0], tail);
      PrefixCons(fs, m);
      assert es[..m + 1] == [es[0]] + es[1..][..m];
      if m + 1 < |fs| {
        PrefixCons(fs, m + 1);
      }
      m := m + 1;
    }
  }

  lemma CutFirst(f: seq<Byte>, e: HistoryEntry, n: nat)
    requires IsFrame(f, e) && n < |f|
    ensures Scan(f[..n]) == Recovered([], 0)
  {
    TornFrame(f, e, n);
    hide ParseFrame, IsFrame;
  }

  lemma PrefixCons(fs: seq<seq<Byte>>, m: nat)
    requires m < |fs|
    ensures Concat(fs[..m + 1]) == fs[0] + Concat(fs[1..][..m])
  {
    assert fs[..m + 1][1..] == fs[1..][..m];
  }

  lemma ScanStopsEmpty()
    ensures Scan([]) == Recovered([], 0)
  {
  }

  /** More surviving bytes never mean fewer recovered records, whatever the bytes are. */
  lemma LongerNeverRecoversLess(bs: seq<Byte>, m: nat, n: nat)
    requires m <= n <= |bs|
    ensures Scan(bs[..m]).entries <= Scan(bs[..n]).entries
    ensures Scan(bs[..m]).kept <= Scan(bs[..n]).kept
  {
    hide Scan, IsLog;
    var fs := ScanSplits(bs[..m]);
    var k := Scan(bs[..m]).kept;
    assert bs[..n][..k] == bs[..m][..k];
    KeptIsGreatest(bs[..n], k, fs, Scan(bs[..m]).entries);
  }

  // ---------------------------------------------------------------------
  // Corruption inside the log.

  /** A frame whose payload is replaced by another of the same length. */
  function WithPayload(f: seq<Byte>, payload: seq<Byte>): seq<Byte>
    requires |f| >= META_SIZE
  {
    f[..9] + payload
  }

  lemma MismatchRejected(f: seq<Byte>, payload: seq<Byte>, rest: seq<Byte>)
    requires |f| == META_SIZE + |payload| && FromBE(f[1..5]) == |payload|
    requires Crc.WordFromBE(f[5..9]) != Crc.Checksum(payload)
    ensures ParseFrame(WithPayload(f, payload) + rest) == Rejected
  {
    hide Crc.Checksum, Crc.WordFromBE, FromBE;
    var bs := WithPayload(f, payload) + rest;
    assert bs[1..5] == f[1..5] && bs[5..9] == f[5..9] && bs[9..9 + |payload|] == payload;
  }

  /**
   * A change of one payload confined to 32 consecutive bits makes recovery
   * return exactly the records before that frame and truncate there.
   */
  lemma BurstStopsRecovery(
    before: seq<seq<Byte>>, es: Timeline, f: seq<Byte>, e: HistoryEntry, after: seq<Byte>,
    payload: seq<Byte>, start: nat)
    requires IsLog(before, es) && IsFrame(f, e)
    requires |payload| == |f[9..]| && payload != f[9..]
    requires Crc.AgreeOutside(Crc.Bits(f[9..]), Crc.Bits(payload), start)
    ensures Scan(Concat(before) + (WithPayload(f, payload) + after)) == Recovered(es, |Concat(before)|)
  {
    hide Crc.Checksum, Crc.WordFromBE, Crc.Bits, Crc.AgreeOutside, FromBE, IsLog, ParseFrame, Scan;
    var tag, original :| IsSealed(f, tag, original, e);
    Crc.BurstDetected(f[9..], payload, start);
    MismatchRejected(f, payload, after);
    ScanStops(before, es, WithPayload(f, payload) + after);
  }

  /** So does any change of the checksum field that alters its value. */
  lemma ChecksumFieldStopsRecovery(
    before: seq<seq<Byte>>, es: Timeline, f: seq<Byte>, e: HistoryEntry, after: seq<Byte>, field: seq<Byte>)
    requires IsLog(before, es) && IsFrame(f, e)
    requires |field| == 4 && Crc.WordFromBE(field) != Crc.WordFromBE(f[5..9])
    ensures Scan(Concat(before) + (f[..5] + field + f[9..] + after)) == Recovered(es, |Concat(before)|)
  {
    hide Crc.Checksum, Crc.WordFromBE, FromBE, IsLog, ParseFrame, Scan;
    var tag, payload :| IsSealed(f, tag, payload, e);
    var g := f[..5] + field + f[9..];
    assert g[1..5] == f[1..5] && g[5..9] == field;
    assert g == WithPayload(g, payload);
    MismatchRejected(g, payload, after);
    ScanStops(before, es, g + after);
  }

  /** And any change of the tag: no payload length is valid for two tags. */
  lemma TagStopsRecovery(
    before: seq<seq<Byte>>, es: Timeline, f: seq<Byte>, e: HistoryEntry, after: seq<Byte>, tag: Byte)
    requires IsLog(before, es) && IsFrame(f, e) && tag != f[0]
    ensures Scan(Concat(before) + (f[0 := tag] + after)) == Recovered(es, |Concat(before)|)
  {
    hide Crc.Checksum, Crc.WordFromBE, FromBE, IsLog, Scan;
    var was, payload :| IsSealed(f, was, payload, e);
    var bs := f[0 := tag] + after;
    assert bs[1..5] == f[1..5] && bs[5..9] == f[5..9] && bs[9..9 + |payload|] == payload;
    assert DecodePayload(tag, payload) == None;
    assert ParseFrame(bs) == Rejected;
    ScanStops(before, es, bs);
  }

  // ---------------------------------------------------------------------
  // Whatever is recovered could have been written.

  lemma ParsedIsNormal(bs: seq<Byte>)
    requires ParseFrame(bs).Record?
    ensures Encodable(ParseFrame(bs).entry) && Normalise(ParseFrame(bs).entry) == ParseFrame(bs).entry
  {
    hide Normalise, Encodable, DecodePayload, FromBE, Crc.Checksum, Crc.WordFromBE;
    DecodedIsEncodable(bs[0], bs[9..ParseFrame(bs).size]);
  }

  lemma {:induction false} ScanNormal(bs: seq<Byte>)
    ensures AllEncodable(Scan(bs).entries)
    ensures NormaliseAll(Scan(bs).entries) == Scan(bs).entries
    decreases |bs|
  {
    hide Normalise, Encodable, ParseFrame;
    if ParseFrame(bs).Record? {
      ParsedIsNormal(bs);
      ScanNormal(bs[ParseFrame(bs).size..]);
    }
  }
}
