/** A history in memory, mirrored to a log file. */
module Journal {
  import opened Bytes
  import opened History
  import opened Records
  import opened Recovery
  import Crc

  const MAGIC: seq<Byte> := [0x44, 0x52, 0x46, 0x54]
  const CURRENT_VERSION := 1
  const HEADER_SIZE := 16

  datatype JournalError = AlreadyLocked | UnexpectedEof | InvalidMagic | UnsupportedVersion(version: nat)

  datatype Result<+T> = Ok(value: T) | Err(error: JournalError)

  function Header(epoch: U64): (h: seq<Byte>)
    ensures |h| == HEADER_SIZE
  {
    MAGIC + ToBE(CURRENT_VERSION, 2) + ToBE(0, 2) + ToBE(epoch, 8)
  }

  /** What the checks on an existing header conclude. */
  function CheckHeader(data: seq<Byte>): Result<()> {
    if |data| < HEADER_SIZE then Err(UnexpectedEof)
    else if data[0..4] != MAGIC then Err(InvalidMagic)
    else if FromBE(data[4..6]) != CURRENT_VERSION then Err(UnsupportedVersion(FromBE(data[4..6])))
    else Ok(())
  }

  lemma HeaderPasses(epoch: U64, body: seq<Byte>)
    ensures CheckHeader(Header(epoch) + body) == Ok(())
    ensures (Header(epoch) + body)[HEADER_SIZE..] == body
  {
    var data := Header(epoch) + body;
    Pow256Table();
    FromToBE(CURRENT_VERSION, 2);
    assert data[4..6] == ToBE(CURRENT_VERSION, 2);
    assert data[0..4] == MAGIC;
  }

  /** The entries on disk and the bytes left there once a file has been opened. */
  datatype Opened = Opened(entries: Timeline, data: seq<Byte>)

  function OpenBytes(data: seq<Byte>, epoch: U64): Result<Opened> {
    if data == [] then Ok(Opened([], Header(epoch)))
    else match CheckHeader(data)
      case Err(e) => Err(e)
      case Ok(_) =>
        var r := Scan(data[HEADER_SIZE..]);
        Ok(Opened(r.entries, data[..HEADER_SIZE + r.kept]))
  }

  /** A new journal starts with these octets: the letters DRFT, version 1, no flags, the time. */
  lemma HeaderOctets(epoch: U64)
    ensures Header(epoch) == [0x44, 0x52, 0x46, 0x54, 0, 1, 0, 0] + ToBE(epoch, 8)
    ensures OpenBytes([], epoch) == Ok(Opened([], [0x44, 0x52, 0x46, 0x54, 0, 1, 0, 0] + ToBE(epoch, 8)))
  {
    BEDigits(1, 2);
    BEDigits(0, 2);
    assert ToBE(1, 2) == [0, 1] && ToBE(0, 2) == [0, 0];
  }

  /**
   * What opening makes of the first octets of a file, one case each: too short,
   * not a journal, another version, or good.
   */
  lemma HeaderDecides(data: seq<Byte>, epoch: U64)
    ensures 0 < |data| < 16 ==> OpenBytes(data, epoch) == Err(UnexpectedEof)
    ensures |data| >= 16 ==>
              && (OpenBytes(data, epoch) == Err(InvalidMagic) <==> data[..4] != [0x44, 0x52, 0x46, 0x54])
              && (data[..4] == [0x44, 0x52, 0x46, 0x54] && data[4..6] != [0, 1] ==>
                    OpenBytes(data, epoch) == Err(UnsupportedVersion((256 as int) * data[4] + data[5])))
              && (OpenBytes(data, epoch).Ok? <==> data[..6] == [0x44, 0x52, 0x46, 0x54, 0, 1])
  {
    hide Scan;
    if |data| >= 16 {
      assert data[0..4] == data[..4];
      assert data[..6] == data[..4] + data[4..6];
      assert data[4..6] == [data[4], data[5]];
      TwoOctets(data[4], data[5]);
    }
  }

  lemma TwoOctets(a: Byte, b: Byte)
    ensures FromBE([a, b]) == (256 as int) * a + b
  {
    assert [a, b][..1] == [a] && [a][..0] == [];
  }

  /** The frames compaction writes: timestamps are zeroed. */
  function CompactedBody(tl: Timeline): seq<Byte>
    requires AllEncodable(tl)
  {
    if tl == [] then [] else CompactedBody(tl[..|tl| - 1]) + Frame(tl[|tl| - 1], 0)
  }

  /** Frame by frame, in order, each with a zero timestamp. */
  lemma CompactedOctets(tl: Timeline, e: HistoryEntry)
    requires AllEncodable(tl) && Encodable(e)
    ensures CompactedBody([]) == []
    ensures AllEncodable(tl + [e]) && CompactedBody(tl + [e]) == CompactedBody(tl) + Frame(e, 0)
  {
    hide Frame, Encodable;
    assert (tl + [e])[..|tl|] == tl;
  }

  /** A file with a good header and nothing but valid frames after it. */
  predicate CleanLog(data: seq<Byte>) {
    && CheckHeader(data).Ok?
    && Scan(data[HEADER_SIZE..]).kept == |data| - HEADER_SIZE
  }

  /** The entries a file holds. */
  function OnDisk(data: seq<Byte>): Timeline
    requires CheckHeader(data).Ok?
  {
    Scan(data[HEADER_SIZE..]).entries
  }

  lemma HeaderPrefix(data: seq<Byte>, more: seq<Byte>)
    requires CheckHeader(data).Ok?
    ensures CheckHeader(data + more).Ok?
    ensures (data + more)[HEADER_SIZE..] == data[HEADER_SIZE..] + more
  {
    assert (data + more)[0..4] == data[0..4] && (data + more)[4..6] == data[4..6];
  }

  lemma HeaderCut(data: seq<Byte>, n: nat)
    requires CheckHeader(data).Ok? && HEADER_SIZE <= n <= |data|
    ensures CheckHeader(data[..n]).Ok?
    ensures data[..n][HEADER_SIZE..] == data[HEADER_SIZE..][..n - HEADER_SIZE]
  {
    assert data[..n][0..4] == data[0..4] && data[..n][4..6] == data[4..6];
  }

  /** Appending one frame to a clean log adds exactly that entry, normalised. */
  lemma AppendExtends(data: seq<Byte>, e: HistoryEntry, timestamp: U64)
    requires CleanLog(data) && Encodable(e)
    ensures var grown := data + Frame(e, timestamp);
            CleanLog(grown) && OnDisk(grown) == OnDisk(data) + [Normalise(e)]
  {
    hide Frame, IsLog, Scan, Normalise, CheckHeader;
    var f, body := Frame(e, timestamp), data[HEADER_SIZE..];
    HeaderPrefix(data, f);
    FrameIsFrame(e, timestamp);
    var fs := ScanSplits(body);
    assert Concat(fs) == body;
    ScanPast(fs, Scan(body).entries, f);
    ScanOneFrame(f, Normalise(e));
  }

  lemma ScanOneFrame(f: seq<Byte>, e: HistoryEntry)
    requires IsFrame(f, e)
    ensures Scan(f) == Recovered([e], |f|)
  {
    ScanStep(f, e, []);
    ScanStopsEmpty();
    assert f + [] == f;
  }

  lemma {:induction false} CompactedLog(tl: Timeline, epoch: U64)
    requires AllEncodable(tl)
    ensures var data := Header(epoch) + CompactedBody(tl);
            CleanLog(data) && OnDisk(data) == NormaliseAll(tl)
    decreases |tl|
  {
    hide Frame, Scan, Normalise, Header, CheckHeader;
    HeaderPasses(epoch, CompactedBody(tl));
    if tl == [] {
      ScanStopsEmpty();
    } else {
      var front, last := tl[..|tl| - 1], tl[|tl| - 1];
      HeaderPasses(epoch, CompactedBody(front));
      CompactedLog(front, epoch);
      AppendExtends(Header(epoch) + CompactedBody(front), last, 0);
      assert Header(epoch) + CompactedBody(tl) == Header(epoch) + CompactedBody(front) + Frame(last, 0);
      assert NormaliseAll(tl) == NormaliseAll(front) + [Normalise(last)];
    }
  }

  /** Opening succeeds exactly on an empty file or one whose header checks out; then the log is clean. */
  lemma OpenedIsClean(data: seq<Byte>, epoch: U64)
    ensures OpenBytes(data, epoch).Ok? <==> data == [] || CheckHeader(data).Ok?
    ensures OpenBytes(data, epoch).Ok? ==>
              var o := OpenBytes(data, epoch).value;
              && CleanLog(o.data) && OnDisk(o.data) == o.entries
              && AllEncodable(o.entries) && NormaliseAll(o.entries) == o.entries
              && OpenBytes(o.data, epoch) == Ok(o)
  {
    hide Scan, Header;
    if data == [] {
      HeaderPasses(epoch, []);
      assert Header(epoch) + [] == Header(epoch);
      ScanStopsEmpty();
      assert Header(epoch)[HEADER_SIZE..] == [];
    } else if CheckHeader(data).Ok? {
      var body := data[HEADER_SIZE..];
      var kept := HEADER_SIZE + Scan(body).kept;
      HeaderCut(data, kept);
      ScanIdempotent(body);
      ScanNormal(body);
      assert data[..kept][..kept] == data[..kept];
    }
  }

  /**
   * A written log cut at any byte. Cut to nothing, it opens as a new journal;
   * cut inside the header, it does not open; cut anywhere after, exactly the
   * records whose frames are complete come back, and the file ends after them.
   */
  lemma CrashAtAnyByte(data: seq<Byte>, fs: seq<seq<Byte>>, es: Timeline, n: nat, epoch: U64) returns (m: nat)
    requires CheckHeader(data).Ok? && IsLog(fs, es) && Concat(fs) == data[HEADER_SIZE..] && n <= |data|
    ensures n == 0 ==> OpenBytes(data[..n], epoch) == Ok(Opened([], Header(epoch)))
    ensures 0 < n < HEADER_SIZE ==> OpenBytes(data[..n], epoch) == Err(UnexpectedEof)
    ensures n >= HEADER_SIZE ==>
              && m <= |fs| && HEADER_SIZE + |Concat(fs[..m])| <= n
              && (m < |fs| ==> n < HEADER_SIZE + |Concat(fs[..m + 1])|)
              && OpenBytes(data[..n], epoch)
                 == Ok(Opened(es[..m], data[..HEADER_SIZE + |Concat(fs[..m])|]))
  {
    hide Scan, IsLog, Concat, Header;
    m := 0;
    if n >= HEADER_SIZE {
      HeaderCut(data, n);
      m := CutAnywhere(fs, es, n - HEADER_SIZE);
      var kept := HEADER_SIZE + |Concat(fs[..m])|;
      assert data[..n][..kept] == data[..kept];
    }
  }

  // ---------------------------------------------------------------------
  // The file and the directory entry that names it.

  /** A file's bytes together with the one handle the lock file allows on it. */
  class File {
    var data: seq<Byte>
    var cursor: nat

    constructor ()
      ensures data == [] && cursor == 0
    {
      data, cursor := [], 0;
    }

    method SeekStart(position: nat)
      modifies `cursor
      ensures cursor == position
    {
      cursor := position;
    }

    method SeekEnd()
      modifies `cursor
      ensures cursor == |data|
    {
      cursor := |data|;
    }

    /** The next `n` bytes, or None, with the cursor at the end, when there are fewer. */
    method ReadExact(n: nat) returns (bs: Option<seq<Byte>>)
      modifies `cursor
      ensures old(cursor) + n <= |data| ==>
                bs == Some(data[old(cursor)..old(cursor) + n]) && cursor == old(cursor) + n
      ensures old(cursor) + n > |data| ==> bs == None
    {
      if cursor + n <= |data| {
        bs := Some(data[cursor..cursor + n]);
        cursor := cursor + n;
      } else {
        bs := None;
        cursor := if cursor <= |data| then |data| else cursor;
      }
    }

    method WriteAll(bs: seq<Byte>)
      requires cursor == |data|
      modifies this
      ensures data == old(data) + bs && cursor == |data|
    {
      data := data + bs;
      cursor := |data|;
    }

    method Truncate(n: nat)
      requires n <= |data|
      modifies `data
      ensures data == old(data[..n])
    {
      data := data[..n];
    }
  }

  /** The directory: which file the journal's path names, if any, and whether its lock file exists. */
  class Directory {
    var journal: File?
    var locked: bool

    constructor ()
      ensures journal == null && !locked
    {
      journal, locked := null, false;
    }
  }

  // ---------------------------------------------------------------------
  // The journal object.

  class JournaledHistory {
    var inner: ReconcileHistory
    var file: File
    const dir: Directory
    const maxRetainedEntries: nat

    ghost predicate Valid()
      reads this, inner, file, dir
    {
      && inner.Valid()
      && dir.locked && dir.journal == file
      && file.cursor == |file.data|
      && AllEncodable(inner.timeline)
      && CleanLog(file.data)
      && Mirrors(file.data, inner.timeline, maxRetainedEntries)
    }

    constructor (inner: ReconcileHistory, file: File, dir: Directory, maxRetainedEntries: nat)
      ensures this.inner == inner && this.file == file && this.dir == dir
      ensures this.maxRetainedEntries == maxRetainedEntries
    {
      this.inner, this.file, this.dir := inner, file, dir;
      this.maxRetainedEntries := maxRetainedEntries;
    }

    /** Writes one record to the file and then adds the entry to the history in memory. */
    method Append(predicted: I128, realized: I128, now: U64)
      requires Valid()
      modifies inner, file
      ensures Valid()
      ensures inner.timeline == old(inner.timeline) + [ConfirmedPair(predicted, realized)]
      ensures file.data == old(file.data) + Frame(ConfirmedPair(predicted, realized), now)
      ensures OnDisk(file.data) == old(OnDisk(file.data)) + [ConfirmedPair(predicted, realized)]
    {
      hide CleanLog, Mirrors, OnDisk, CheckHeader, Normalise, Crc.Checksum, Crc.WordToBE, Pairs, Reverts;
      ghost var e := ConfirmedPair(predicted, realized);
      assert Normalise(e) == e by { PairIsNormal(predicted, realized); }
      var payload := I128ToBE(predicted) + I128ToBE(realized) + ToBE(now, 8);
      var crc := Crc.Crc32(payload);
      var frameHeader := [TAG_PAIR] + ToBE(|payload|, 4) + Crc.WordToBE(crc);
      AppendMirrors(file.data, inner.timeline, e, now, maxRetainedEntries);
      assert file.data + Frame(e, now) == file.data + frameHeader + payload;
      file.WriteAll(frameHeader);
      file.WriteAll(payload);
      inner.Append(predicted, realized);
    }

    method RecordRevert(event: RevertEvent, now: U64)
      requires Valid() && Encodable(RevertedTx(event))
      modifies inner, file
      ensures Valid()
      ensures inner.timeline == old(inner.timeline) + [RevertedTx(event)]
      ensures file.data == old(file.data) + Frame(RevertedTx(event), now)
      ensures OnDisk(file.data) == old(OnDisk(file.data)) + [Normalise(RevertedTx(event))]
    {
      hide CleanLog, Mirrors, OnDisk, CheckHeader, Normalise, Crc.Checksum, Crc.WordToBE, Pairs, Reverts;
      ghost var e := RevertedTx(event);
      var reason := WrittenReason(event.reason);
      var payload := event.txHash + ToBE(event.blockNumber, 8) + ToBE(event.gasUsed, 8)
        + ToBE(event.effectiveGasPrice, 16) + ToBE(now, 8) + ToBE(|reason|, 2) + reason;
      var crc := Crc.Crc32(payload);
      var frameHeader := [TAG_REVERT] + ToBE(|payload|, 4) + Crc.WordToBE(crc);
      AppendMirrors(file.data, inner.timeline, e, now, maxRetainedEntries);
      assert file.data + Frame(e, now) == file.data + frameHeader + payload;
      file.WriteAll(frameHeader);
      file.WriteAll(payload);
      inner.RecordRevert(event);
    }

    /** Rewrites the file to the newest entries when the history has outgrown the limit. */
    method Compact(now: U64)
      requires Valid()
      modifies this`file, dir
      ensures Valid() && inner == old(inner)
      ensures |inner.timeline| <= maxRetainedEntries ==>
                file == old(file) && dir.journal == old(dir.journal)
      ensures |inner.timeline| > maxRetainedEntries ==>
                && fresh(file)
                && file.data == Header(now) + CompactedBody(LastN(inner.timeline, maxRetainedEntries))
                && OnDisk(file.data) == LastN(NormaliseAll(inner.timeline), maxRetainedEntries)
    {
      hide Header, CompactedBody, CheckHeader, OnDisk, NormaliseAll, CleanLog, Mirrors, AllEncodable, LastN;
      hide ReconcileHistory.Valid;
      if |inner.timeline| <= maxRetainedEntries {
        return;
      }
      LastNEncodable(inner.timeline, maxRetainedEntries);
      CompactMirrors(inner.timeline, maxRetainedEntries, now);
      var temp := WriteCompacted(LastN(inner.timeline, maxRetainedEntries), now);
      dir.journal := temp;
      file := temp;
      file.SeekEnd();
    }

    /** Dropping the journal removes the lock file and touches nothing else. */
    method Close()
      requires Valid()
      modifies dir`locked
      ensures !dir.locked
    {
      dir.locked := false;
    }
  }

  lemma LastNEncodable(tl: Timeline, n: nat)
    requires AllEncodable(tl)
    ensures AllEncodable(LastN(tl, n))
  {
    hide Encodable;
  }

  /** The temporary file compaction prepares before it is renamed over the journal. */
  method WriteCompacted(retained: Timeline, now: U64) returns (temp: File)
    requires AllEncodable(retained)
    ensures fresh(temp) && temp.cursor == |temp.data|
    ensures temp.data == Header(now) + CompactedBody(retained)
  {
    hide Header, CompactedBody, Frame, Encodable;
    temp := new File();
    temp.WriteAll(Header(now));
    CompactedBodySteps(retained, 0);
    for i := 0 to |retained|
      invariant fresh(temp) && temp.cursor == |temp.data|
      invariant temp.data == Header(now) + CompactedBody(retained[..i])
    {
      var frame := EncodeFrame(retained[i]);
      CompactedBodySteps(retained, i + 1);
      temp.WriteAll(frame);
      assert temp.data == Header(now) + (CompactedBody(retained[..i]) + frame);
    }
    assert retained[..|retained|] == retained;
  }

  lemma CompactedBodySteps(tl: Timeline, i: nat)
    requires AllEncodable(tl) && i <= |tl|
    ensures i == 0 ==> CompactedBody(tl[..i]) == []
    ensures i > 0 ==> CompactedBody(tl[..i]) == CompactedBody(tl[..i - 1]) + Frame(tl[i - 1], 0)
  {
    hide Frame, Encodable;
    if i > 0 {
      assert tl[..i][..i - 1] == tl[..i - 1];
    }
  }

  lemma PairIsNormal(p: int, r: int)
    ensures Normalise(ConfirmedPair(p, r)) == ConfirmedPair(p, r)
  {
  }

  /** One frame with a zero timestamp, as compaction writes it. */
  method EncodeFrame(e: HistoryEntry) returns (frame: seq<Byte>)
    requires Encodable(e)
    ensures frame == Frame(e, 0)
  {
    var payload := Payload(e, 0);
    var crc := Crc.Crc32(payload);
    frame := [Tag(e)] + ToBE(|payload|, 4) + Crc.WordToBE(crc) + payload;
  }

  /**
   * The file holds a suffix of the history in memory, as normalised, no
   * shorter than the retention limit allows.
   */
  predicate Mirrors(data: seq<Byte>, tl: Timeline, maxRetained: nat) {
    && CheckHeader(data).Ok?
    && OnDisk(data) == LastN(NormaliseAll(tl), |OnDisk(data)|)
    && (|OnDisk(data)| >= |tl| || |OnDisk(data)| >= maxRetained)
  }

  lemma CleanHasHeader(data: seq<Byte>)
    requires CleanLog(data)
    ensures CheckHeader(data).Ok?
  {
  }

  lemma LastNGrows<T>(s: seq<T>, n: nat, x: T)
    requires n <= |s|
    ensures LastN(s + [x], n + 1) == LastN(s, n) + [x]
  {
  }

  lemma NormaliseSnoc(tl: Timeline, e: HistoryEntry)
    ensures NormaliseAll(tl + [e]) == NormaliseAll(tl) + [Normalise(e)]
  {
    hide Normalise;
  }

  lemma AppendMirrors(data: seq<Byte>, tl: Timeline, e: HistoryEntry, now: U64, maxRetained: nat)
    requires CleanLog(data) && Mirrors(data, tl, maxRetained) && Encodable(e)
    ensures var grown := data + Frame(e, now);
            && CleanLog(grown) && Mirrors(grown, tl + [e], maxRetained)
            && OnDisk(grown) == OnDisk(data) + [Normalise(e)]
  {
    hide Frame, OnDisk, CheckHeader, Normalise, NormaliseAll, LastN, CleanLog, Encodable;
    AppendExtends(data, e, now);
    CleanHasHeader(data + Frame(e, now));
    NormaliseSnoc(tl, e);
    LastNGrows(NormaliseAll(tl), |OnDisk(data)|, Normalise(e));
  }

  lemma CompactMirrors(tl: Timeline, maxRetained: nat, now: U64)
    requires AllEncodable(tl)
    ensures var data := Header(now) + CompactedBody(LastN(tl, maxRetained));
            && CleanLog(data) && Mirrors(data, tl, maxRetained)
            && OnDisk(data) == LastN(NormaliseAll(tl), maxRetained)
  {
    hide Header, OnDisk, CheckHeader, Normalise, CompactedBody;
    CompactedLog(LastN(tl, maxRetained), now);
    assert NormaliseAll(LastN(tl, maxRetained)) == LastN(NormaliseAll(tl), maxRetained);
  }

  // ---------------------------------------------------------------------
  // Opening.

  /**
   * Opens the journal `dir` names, creating or recovering it. An existing lock
   * file makes it fail and touch nothing; otherwise the lock is held from then
   * on by the journal returned, and by nobody if there is none.
   */
  method OpenOrCreate(dir: Directory, maxRetainedEntries: nat, now: U64)
    returns (r: Result<JournaledHistory>)
    modifies dir, dir.journal
    ensures old(dir.locked) ==>
              && r == Err(AlreadyLocked) && dir.locked && dir.journal == old(dir.journal)
              && (dir.journal != null ==> dir.journal.data == old(dir.journal.data))
    ensures !old(dir.locked) ==>
              && dir.locked == r.Ok?
              && dir.journal != null && (old(dir.journal) != null ==> dir.journal == old(dir.journal))
              && (old(dir.journal) == null ==> fresh(dir.journal))
              && var before := if old(dir.journal) == null then [] else old(dir.journal.data);
              && (|before| >= 16 ==>
                    && (r == Err(InvalidMagic) <==> before[..4] != [0x44, 0x52, 0x46, 0x54])
                    && (before[..4] == [0x44, 0x52, 0x46, 0x54] && before[4..6] != [0, 1] ==>
                          r == Err(UnsupportedVersion((256 as int) * before[4] + before[5])))
                    && (r.Ok? <==> before[..6] == [0x44, 0x52, 0x46, 0x54, 0, 1]))
              && (0 < |before| < 16 ==> r == Err(UnexpectedEof))
              && (r.Err? ==> dir.journal.data == before)
              && (before == [] ==> r.Ok? && dir.journal.data == [0x44, 0x52, 0x46, 0x54, 0, 1, 0, 0] + ToBE(now, 8))
              && match OpenBytes(before, now)
              case Err(e) => r == Err(e) && dir.journal.data == before
              case Ok(o) =>
                && r.Ok? && fresh(r.value) && fresh(r.value.inner)
                && r.value.Valid() && r.value.dir == dir && r.value.maxRetainedEntries == maxRetainedEntries
                && r.value.inner.timeline == o.entries && r.value.file.data == o.data
                && OnDisk(r.value.file.data) == r.value.inner.timeline
  {
    if dir.locked {
      return Err(AlreadyLocked);
    }
    dir.locked := true;
    HeaderDecides(if dir.journal == null then [] else dir.journal.data, now);
    HeaderOctets(now);
    hide OpenBytes, Header, CheckHeader, CleanLog, OnDisk, Mirrors;
    r := OpenLocked(dir, maxRetainedEntries, now);
    if r.Err? {
      dir.locked := false;
    }
  }

  /** The part of opening that runs with the lock file in place. */
  method OpenLocked(dir: Directory, maxRetainedEntries: nat, now: U64)
    returns (r: Result<JournaledHistory>)
    requires dir.locked
    modifies dir`journal, dir.journal
    ensures dir.journal != null && (old(dir.journal) != null ==> dir.journal == old(dir.journal))
    ensures old(dir.journal) == null ==> fresh(dir.journal)
    ensures var before := if old(dir.journal) == null then [] else old(dir.journal.data);
            match OpenBytes(before, now)
            case Err(e) => r == Err(e) && dir.journal.data == before
            case Ok(o) =>
              && r.Ok? && fresh(r.value) && fresh(r.value.inner)
              && r.value.Valid() && r.value.dir == dir && r.value.maxRetainedEntries == maxRetainedEntries
              && r.value.inner.timeline == o.entries && r.value.file.data == o.data
              && OnDisk(r.value.file.data) == r.value.inner.timeline
  {
    if dir.journal == null {
      dir.journal := new File();
    }
    var file: File := dir.journal;
    ghost var before := file.data;
    var inner := new ReconcileHistory();
    OpenedIsClean(before, now);
    if |file.data| == 0 {
      file.SeekStart(0);
      assert file.data + Header(now) == Header(now);
      file.WriteAll(Header(now));
    } else {
      file.SeekStart(0);
      var header := file.ReadExact(HEADER_SIZE);
      if header.None? {
        return Err(UnexpectedEof);
      }
      assert header.value == before[..HEADER_SIZE];
      assert header.value[0..4] == before[0..4] && header.value[4..6] == before[4..6];
      if header.value[0..4] != MAGIC {
        return Err(InvalidMagic);
      }
      var version := FromBE(header.value[4..6]);
      if version != CURRENT_VERSION {
        return Err(UnsupportedVersion(version));
      }
      Replay(file, inner);
    }
    file.SeekEnd();
    assert NormaliseAll(inner.timeline) == inner.timeline;
    assert LastN(inner.timeline, |inner.timeline|) == inner.timeline;
    var j := new JournaledHistory(inner, file, dir, maxRetainedEntries);
    r := Ok(j);
  }

  /** Reads one record at the cursor; None for a torn or corrupt one. */
  method ReadRecord(file: File) returns (record: Option<HistoryEntry>)
    requires file.cursor <= |file.data|
    modifies file`cursor
    ensures match ParseFrame(file.data[old(file.cursor)..])
            case Record(e, n) => record == Some(e) && file.cursor == old(file.cursor) + n
            case _ => record == None
  {
    hide Crc.Checksum, Crc.WordFromBE, DecodePayload, FromBE;
    ghost var rest := file.data[file.cursor..];
    var meta := file.ReadExact(META_SIZE);
    if meta.None? {
      return None;
    }
    assert meta.value == rest[..9];
    assert meta.value[1..5] == rest[1..5] && meta.value[5..9] == rest[5..9];
    var tag := meta.value[0];
    var payloadLen := FromBE(meta.value[1..5]);
    var expected := Crc.WordFromBE(meta.value[5..9]);
    var payload := file.ReadExact(payloadLen);
    if payload.None? {
      return None;
    }
    assert payload.value == rest[9..9 + payloadLen];
    var actual := Crc.Crc32(payload.value);
    if actual != expected {
      return None;
    }
    record := DecodePayload(tag, payload.value);
  }

  lemma ScanAt(data: seq<Byte>, offset: nat)
    requires offset <= |data|
    ensures match ParseFrame(data[offset..])
            case Record(e, n) =>
              Scan(data[offset..])
              == Recovered([e] + Scan(data[offset + n..]).entries, n + Scan(data[offset + n..]).kept)
            case _ => Scan(data[offset..]) == Recovered([], 0)
  {
    hide ParseFrame;
    var p := ParseFrame(data[offset..]);
    if p.Record? {
      assert data[offset..][p.size..] == data[offset + p.size..];
    }
  }

  lemma Regroup<T>(a: seq<T>, x: T, b: seq<T>)
    ensures a + ([x] + b) == (a + [x]) + b
  {
  }

  /** The recovery loop: replays records into `inner`, truncating at the first that is not one. */
  method Replay(file: File, inner: ReconcileHistory)
    requires CheckHeader(file.data).Ok? && file.cursor == HEADER_SIZE
    requires inner.Valid() && inner.timeline == []
    modifies file, inner
    ensures inner.Valid()
    ensures var r := Scan(old(file.data)[HEADER_SIZE..]);
            inner.timeline == r.entries && file.data == old(file.data)[..HEADER_SIZE + r.kept]
  {
    hide Scan, ParseFrame, Pairs, Reverts;
    ghost var data := file.data;
    ghost var total := Scan(data[HEADER_SIZE..]);
    hide CheckHeader;
    var validOffset := HEADER_SIZE;
    assert [] + total.entries == total.entries;
    while true
      invariant HEADER_SIZE <= validOffset <= |data| && file.data == data && file.cursor == validOffset
      invariant inner.Valid()
      invariant total.entries == inner.timeline + Scan(data[validOffset..]).entries
      invariant total.kept == validOffset - HEADER_SIZE + Scan(data[validOffset..]).kept
      decreases |data| - validOffset
    {
      ScanAt(data, validOffset);
      ghost var before := inner.timeline;
      var record := ReadRecord(file);
      match record {
        case Some(ConfirmedPair(p, r)) => inner.Append(p, r);
        case Some(RevertedTx(event)) => inner.RecordRevert(event);
        case None =>
          file.Truncate(validOffset);
          file.SeekStart(validOffset);
          break;
      }
      Regroup(before, record.value, Scan(data[file.cursor..]).entries);
      validOffset := file.cursor;
    }
  }
}
