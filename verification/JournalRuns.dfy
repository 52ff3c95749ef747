/** Whole lives of a journal, crashes included. */
module JournalRuns {
  import opened Bytes
  import opened History
  import opened Records
  import opened Recovery
  import opened Journal

  // A crash leaves any prefix of the bytes being written, and it leaves the
  // lock file, until somebody deletes that. Renaming is atomic, and a failed
  // write is a crash.

  /** The journal a running process holds. */
  datatype Session = Session(timeline: Timeline, maxRetained: nat, compacted: bool)

  /**
   * `issued` is every event handed to the journal whose record became
   * complete on disk; `dropped` says how many of the oldest of them lie before
   * what the latest compaction retained. `locked` says that the lock file exists.
   */
  datatype World = World(
    disk: seq<Byte>, locked: bool, session: Option<Session>, issued: Timeline, dropped: int)

  datatype Event =
    | Open(maxRetained: nat, now: U64)
    | Write(entry: HistoryEntry, now: U64)
    | Compact(now: U64)
    | Close
    | Unlock
    | Crash
    | CrashOpening(now: U64, written: nat)
    | CrashWriting(entry: HistoryEntry, now: U64, written: nat)
    | CrashCompacting(now: U64, renamed: bool)

  const Initial := World([], false, None, [], 0)

  predicate Possible(e: Event) {
    match e
    case Write(entry, _) => Encodable(entry)
    case CrashWriting(entry, _, _) => Encodable(entry)
    case _ => true
  }

  predicate AllPossible(es: seq<Event>) {
    forall i :: 0 <= i < |es| ==> Possible(es[i])
  }

  function Upto(bs: seq<Byte>, n: nat): seq<Byte> {
    if n <= |bs| then bs[..n] else bs
  }

  /** The history in memory respects the source's integer widths. */
  predicate SessionTyped(w: World) {
    w.session.Some? ==> AllEncodable(w.session.value.timeline)
  }

  /** The world once a due compaction has renamed its file into place. */
  function Compacted(w: World, now: U64): World
    requires w.session.Some? && AllEncodable(w.session.value.timeline)
  {
    var s := w.session.value;
    if |s.timeline| <= s.maxRetained then w
    else w.(
      disk := Header(now) + CompactedBody(LastN(s.timeline, s.maxRetained)),
      session := Some(s.(compacted := true)),
      dropped := |w.issued| - s.maxRetained)
  }

  /** What opening the journal returns. */
  function Attempt(w: World, now: U64): Result<Opened> {
    if w.locked then Err(AlreadyLocked) else OpenBytes(w.disk, now)
  }

  /** Opening: on success the session keeps the lock, on failure nobody does. */
  function Opening(w: World, maxRetained: nat, now: U64): World {
    match Attempt(w, now)
    case Err(_) => w
    case Ok(o) => w.(disk := o.data, locked := true, session := Some(Session(o.entries, maxRetained, false)))
  }

  /** The process is gone, but its lock file is not. */
  function Killed(w: World): World {
    w.(session := None, locked := true)
  }

  /** Events that make no sense in a world, such as a write with no session, leave it alone. */
  function Step(w: World, e: Event): World
    requires Possible(e) && SessionTyped(w)
  {
    if w.session.None? then
      match e
      case Open(k, now) => Opening(w, k, now)
      case CrashOpening(now, n) =>
        // Cut off while writing a header, or before or after truncating a tail.
        if w.locked then w
        else if w.disk == [] then Killed(w.(disk := Upto(Header(now), n)))
        else if n == 0 then Killed(w)
        else Killed(Opening(w, 0, now))
      case Unlock => w.(locked := false)
      case _ => w
    else
      var s := w.session.value;
      match e
      case Write(entry, now) =>
        w.(disk := w.disk + Frame(entry, now),
           session := Some(s.(timeline := s.timeline + [entry])),
           issued := w.issued + [entry])
      case CrashWriting(entry, now, n) =>
        var f := Frame(entry, now);
        Killed(w.(disk := w.disk + Upto(f, n), issued := if n >= |f| then w.issued + [entry] else w.issued))
      case Compact(now) => Compacted(w, now)
      case CrashCompacting(now, renamed) => Killed(if renamed then Compacted(w, now) else w)
      case Crash => Killed(w)
      case Close => w.(session := None, locked := false)
      case _ => w
  }

  // ---------------------------------------------------------------------
  // What every reachable world satisfies.

  /** The file holds exactly the issued events but for those dropped. */
  predicate DiskFaithful(w: World) {
    && CheckHeader(w.disk).Ok?
    && 0 <= w.dropped <= |w.issued|
    && OnDisk(w.disk) == NormaliseAll(w.issued)[w.dropped..]
  }

  predicate SessionFaithful(w: World) {
    w.session.Some? ==>
      var s := w.session.value;
      && w.locked
      && AllEncodable(s.timeline)
      && CleanLog(w.disk)
      && Mirrors(w.disk, s.timeline, s.maxRetained)
      && (!s.compacted ==> OnDisk(w.disk) == NormaliseAll(s.timeline))
      && NormaliseAll(s.timeline) == LastN(NormaliseAll(w.issued), |s.timeline|)
  }

  /** Nothing was ever recorded, and the file is not even a whole header. */
  predicate Unborn(w: World) {
    w.session.None? && w.issued == [] && w.dropped == 0 && |w.disk| < HEADER_SIZE
  }

  predicate Inv(w: World) {
    Unborn(w) || (DiskFaithful(w) && SessionFaithful(w))
  }

  lemma NormaliseAppend(a: Timeline, b: Timeline)
    ensures NormaliseAll(a + b) == NormaliseAll(a) + NormaliseAll(b)
  {
    hide Normalise;
  }

  /** A record cut short adds nothing to a clean log. */
  lemma TornWrite(data: seq<Byte>, e: HistoryEntry, now: U64, n: nat)
    requires CleanLog(data) && Encodable(e) && n < |Frame(e, now)|
    ensures CheckHeader(data + Frame(e, now)[..n]).Ok?
    ensures OnDisk(data + Frame(e, now)[..n]) == OnDisk(data)
  {
    hide Frame, IsLog, Scan, ParseFrame, Normalise, CheckHeader;
    var f, body := Frame(e, now), data[HEADER_SIZE..];
    HeaderPrefix(data, f[..n]);
    FrameIsFrame(e, now);
    TornFrame(f, Normalise(e), n);
    var fs := ScanSplits(body);
    assert Concat(fs) == body;
    ScanStops(fs, Scan(body).entries, f[..n]);
  }

  lemma DropGrows<T>(s: seq<T>, n: nat, x: T)
    requires n <= |s|
    ensures (s + [x])[n..] == s[n..] + [x]
  {
  }

  lemma WriteKeepsInv(w: World, entry: HistoryEntry, now: U64)
    requires Inv(w) && w.session.Some? && Encodable(entry)
    ensures Inv(Step(w, Write(entry, now)))
  {
    hide Frame, OnDisk, CheckHeader, Normalise, Mirrors, CleanLog, Encodable;
    var s := w.session.value;
    CleanHasHeader(w.disk);
    AppendMirrors(w.disk, s.timeline, entry, now, s.maxRetained);
    CleanHasHeader(w.disk + Frame(entry, now));
    NormaliseAppend(w.issued, [entry]);
    NormaliseAppend(s.timeline, [entry]);
    assert NormaliseAll([entry]) == [Normalise(entry)];
    LastNGrows(NormaliseAll(w.issued), |s.timeline|, Normalise(entry));
    DropGrows(NormaliseAll(w.issued), w.dropped, Normalise(entry));
  }

  lemma DroppedSessionKeepsInv(w: World, locked: bool)
    requires Inv(w)
    ensures Inv(w.(session := None, locked := locked))
  {
    hide OnDisk, CheckHeader, Normalise, NormaliseAll;
  }

  lemma TornWritingKeepsInv(w: World, entry: HistoryEntry, now: U64, n: nat)
    requires Inv(w) && w.session.Some? && Encodable(entry) && n < |Frame(entry, now)|
    ensures Inv(Killed(w.(disk := w.disk + Frame(entry, now)[..n])))
  {
    hide Frame, OnDisk, CheckHeader, Normalise, NormaliseAll, CleanLog, Encodable;
    TornWrite(w.disk, entry, now, n);
  }

  /** The two outcomes of a crash while writing: a torn record, or a whole one. */
  lemma CrashWritingOutcome(w: World, entry: HistoryEntry, now: U64, n: nat)
    requires w.session.Some? && Encodable(entry) && AllEncodable(w.session.value.timeline)
    ensures var f, after := Frame(entry, now), Step(w, CrashWriting(entry, now, n));
            if n < |f| then after == Killed(w.(disk := w.disk + f[..n]))
            else after == Killed(Step(w, Write(entry, now)))
  {
    hide Frame, Encodable, Compacted, Opening;
  }

  lemma CrashWritingKeepsInv(w: World, entry: HistoryEntry, now: U64, n: nat)
    requires Inv(w) && w.session.Some? && Encodable(entry)
    ensures Inv(Step(w, CrashWriting(entry, now, n)))
  {
    CrashWritingOutcome(w, entry, now, n);
    hide Inv, Frame, Encodable, Step;
    if n < |Frame(entry, now)| {
      TornWritingKeepsInv(w, entry, now, n);
    } else {
      WriteKeepsInv(w, entry, now);
      DroppedSessionKeepsInv(Step(w, Write(entry, now)), true);
    }
  }

  lemma NewestOfNewest<T>(all: seq<T>, part: seq<T>, n: nat)
    requires part == LastN(all, |part|) && n <= |part|
    ensures |part| <= |all| && LastN(part, n) == all[|all| - n..]
  {
  }

  /** The newest entries are the newest of all that was issued. */
  lemma NewestOfIssued(w: World, n: nat)
    requires Inv(w) && w.session.Some? && n <= |w.session.value.timeline|
    ensures var tl := w.session.value.timeline;
            |tl| <= |w.issued| && LastN(NormaliseAll(tl), n) == NormaliseAll(w.issued)[|w.issued| - n..]
  {
    hide OnDisk, CheckHeader, NormaliseAll, CleanLog, Encodable, Mirrors, DiskFaithful, LastN;
    NewestOfNewest(NormaliseAll(w.issued), NormaliseAll(w.session.value.timeline), n);
  }

  lemma CompactKeepsInv(w: World, now: U64)
    requires Inv(w) && w.session.Some?
    ensures Inv(Compacted(w, now))
  {
    hide OnDisk, CheckHeader, CleanLog, Header, CompactedBody, Encodable, Mirrors, LastN, NormaliseAll;
    var s := w.session.value;
    if |s.timeline| > s.maxRetained {
      CompactMirrors(s.timeline, s.maxRetained, now);
      NewestOfIssued(w, s.maxRetained);
      CleanHasHeader(Compacted(w, now).disk);
    }
  }

  lemma OpeningKeepsInv(w: World, maxRetained: nat, now: U64)
    requires Inv(w) && w.session.None?
    ensures Inv(Opening(w, maxRetained, now))
  {
    OpenedIsClean(w.disk, now);
    hide Header, Scan, Normalise, CleanLog;
    match Attempt(w, now) {
      case Err(_) =>
      case Ok(o) =>
        CleanHasHeader(o.data);
        if w.disk != [] {
          assert CheckHeader(w.disk).Ok?;
          assert o.entries == OnDisk(w.disk);
        }
        assert LastN(o.entries, |o.entries|) == o.entries;
    }
  }

  lemma CrashOpeningKeepsInv(w: World, now: U64, n: nat)
    requires Inv(w) && w.session.None? && !w.locked
    ensures Inv(Step(w, CrashOpening(now, n)))
  {
    if w.disk == [] {
      if n >= HEADER_SIZE {
        OpeningKeepsInv(w, 0, now);
        hide Inv, Header;
        assert Upto(Header(now), n) == Header(now);
        DroppedSessionKeepsInv(Opening(w, 0, now), true);
      }
    } else {
      var tried := if n == 0 then w else Opening(w, 0, now);
      OpeningKeepsInv(w, 0, now);
      hide Inv;
      DroppedSessionKeepsInv(tried, true);
    }
  }

  lemma CrashCompactingKeepsInv(w: World, now: U64, renamed: bool)
    requires Inv(w) && w.session.Some?
    ensures Inv(Killed(if renamed then Compacted(w, now) else w))
  {
    hide OnDisk, CheckHeader, NormaliseAll, Encodable, Mirrors, CleanLog, Compacted, DiskFaithful, LastN;
    CompactKeepsInv(w, now);
    var done := if renamed then Compacted(w, now) else w;
    hide Inv;
    DroppedSessionKeepsInv(done, true);
  }

  lemma StepKeepsInv(w: World, e: Event)
    requires Inv(w) && Possible(e)
    ensures Inv(Step(w, e))
  {
    hide Inv, Frame, Encodable, Compacted, Opening, Header;
    match e {
      case Open(k, now) => if w.session.None? { OpeningKeepsInv(w, k, now); }
      case CrashOpening(now, n) => if w.session.None? && !w.locked { CrashOpeningKeepsInv(w, now, n); }
      case Write(entry, now) => if w.session.Some? { WriteKeepsInv(w, entry, now); }
      case CrashWriting(entry, now, n) => if w.session.Some? { CrashWritingKeepsInv(w, entry, now, n); }
      case Compact(now) => if w.session.Some? { CompactKeepsInv(w, now); }
      case CrashCompacting(now, renamed) => if w.session.Some? { CrashCompactingKeepsInv(w, now, renamed); }
      case Crash => DroppedSessionKeepsInv(w, true);
      case Close => DroppedSessionKeepsInv(w, false);
      case Unlock => DroppedSessionKeepsInv(w, false);
    }
  }

  lemma StepKeepsTypes(w: World, e: Event)
    requires SessionTyped(w) && Possible(e)
    ensures SessionTyped(Step(w, e))
  {
    hide Frame, Header, CompactedBody, Encodable;
    if w.session.None? && e.Open? {
      OpenedIsClean(w.disk, e.now);
    }
  }

  /** The world after a sequence of events. */
  function Run(es: seq<Event>): (w: World)
    requires AllPossible(es)
    ensures SessionTyped(w)
  {
    if es == [] then Initial
    else
      var before := Run(es[..|es| - 1]);
      StepKeepsTypes(before, es[|es| - 1]);
      Step(before, es[|es| - 1])
  }

  /** Every reachable world satisfies the invariant. */
  lemma {:induction false} RunKeepsInv(es: seq<Event>)
    requires AllPossible(es)
    ensures Inv(Run(es))
  {
    hide Inv, Step, Possible;
    if es == [] {
      InitialInv();
    } else {
      RunKeepsInv(es[..|es| - 1]);
      StepKeepsInv(Run(es[..|es| - 1]), es[|es| - 1]);
    }
  }

  lemma InitialInv()
    ensures Inv(Initial)
  {
  }

  // ---------------------------------------------------------------------
  // What that means for recovery.

  /**
   * However the journal got there, reopening it recovers exactly the issued
   * events but for those dropped, in order, as normalised.
   */
  lemma {:induction false} RecoversIssued(es: seq<Event>, now: U64)
    requires AllPossible(es)
    ensures var w := Run(es);
            && 0 <= w.dropped <= |w.issued|
            && (OpenBytes(w.disk, now).Ok? ==>
                  OpenBytes(w.disk, now).value.entries == NormaliseAll(w.issued)[w.dropped..])
  {
    hide Scan, Header, Run, Normalise;
    var w := Run(es);
    RunKeepsInv(es);
    if w.disk != [] && CheckHeader(w.disk).Ok? {
      assert DiskFaithful(w);
    }
  }

  /** The event is a compaction that runs to the renaming of its file. */
  predicate Compacts(e: Event) {
    e.Compact? || (e.CrashCompacting? && e.renamed)
  }

  /**
   * Only a due compaction drops anything: then what lies before its newest
   * `maxRetained` entries, and never less than had been dropped before.
   */
  lemma OnlyCompactionDrops(w: World, e: Event)
    requires Inv(w) && Possible(e)
    ensures var due := w.session.Some? && |w.session.value.timeline| > w.session.value.maxRetained;
            if due && Compacts(e) then w.dropped <= Step(w, e).dropped == |w.issued| - w.session.value.maxRetained
            else Step(w, e).dropped == w.dropped
  {
    hide CheckHeader, OnDisk, Normalise, Frame, Header, CompactedBody, OpenBytes, CleanLog;
  }

  /** Nothing issued is dropped while no compaction runs: in particular nothing written after the last one. */
  lemma {:induction false} LaterNeverDropped(es: seq<Event>, later: seq<Event>)
    requires AllPossible(es) && AllPossible(later)
    requires forall i :: 0 <= i < |later| ==> !Compacts(later[i])
    ensures AllPossible(es + later) && Run(es + later).dropped == Run(es).dropped
    decreases |later|
  {
    hide Run, Inv, Step, Possible, Compacts;
    if later == [] {
      assert es + later == es;
    } else {
      var front, e := later[..|later| - 1], later[|later| - 1];
      LaterNeverDropped(es, front);
      assert es + later == (es + front) + [e];
      RunSnoc(es + front, e);
      RunKeepsInv(es + front);
      OnlyCompactionDrops(Run(es + front), e);
    }
  }

  /** While a session runs, its file holds a suffix of its history, and the whole of it until it compacts. */
  lemma SessionMirrored(es: seq<Event>)
    requires AllPossible(es) && Run(es).session.Some?
    ensures var w := Run(es);
            var s := w.session.value;
            && CleanLog(w.disk)
            && Mirrors(w.disk, s.timeline, s.maxRetained)
            && (!s.compacted ==> OnDisk(w.disk) == NormaliseAll(s.timeline))
  {
    hide Run, CleanLog, Mirrors, NormaliseAll, OnDisk, DiskFaithful;
    RunKeepsInv(es);
  }

  /**
   * Opening fails exactly on an existing lock file or a partial header, each
   * with its own error, and in the latter case nothing was lost.
   */
  lemma OpenFailsExactly(es: seq<Event>, now: U64)
    requires AllPossible(es)
    ensures var w := Run(es);
            && (Attempt(w, now).Err? <==> w.locked || 0 < |w.disk| < HEADER_SIZE)
            && (w.locked ==> Attempt(w, now) == Err(AlreadyLocked))
            && (!w.locked && Attempt(w, now).Err? ==> Attempt(w, now) == Err(UnexpectedEof) && w.issued == [])
  {
    hide Run, Scan, Header;
    RunKeepsInv(es);
  }

  lemma RunSnoc(es: seq<Event>, e: Event)
    requires AllPossible(es) && Possible(e)
    ensures AllPossible(es + [e]) && Run(es + [e]) == Step(Run(es), e)
  {
    assert (es + [e])[..|es + [e]| - 1] == es;
  }

  lemma PartialHeaderStays(w: World, e: Event)
    requires Inv(w) && 0 < |w.disk| < HEADER_SIZE && Possible(e)
    ensures Step(w, e) == w.(locked := Step(w, e).locked)
  {
  }

  /** A partial header is never repaired: no later event changes the file, opens a session or records an entry. */
  lemma {:induction false} PartialHeaderIsForever(es: seq<Event>, later: seq<Event>)
    requires AllPossible(es) && AllPossible(later)
    requires 0 < |Run(es).disk| < HEADER_SIZE
    ensures AllPossible(es + later) && Run(es + later) == Run(es).(locked := Run(es + later).locked)
    decreases |later|
  {
    hide Run, Inv, Step, Possible;
    if later == [] {
      assert es + later == es;
    } else {
      var front, e := later[..|later| - 1], later[|later| - 1];
      PartialHeaderIsForever(es, front);
      assert es + later == (es + front) + [e];
      RunSnoc(es + front, e);
      RunKeepsInv(es + front);
      PartialHeaderStays(Run(es + front), e);
    }
  }

  /** It is reached: a crash inside the very first header write leaves one. */
  lemma PartialHeaderReached(now: U64, n: nat)
    requires 0 < n < HEADER_SIZE
    ensures |Run([CrashOpening(now, n)]).disk| == n
  {
    assert [CrashOpening(now, n)][..0] == [];
  }

  // ---------------------------------------------------------------------
  // The lock file.

  /** A session runs only behind the lock, and a process that is killed leaves its lock behind. */
  lemma KilledLeavesLock(es: seq<Event>)
    requires AllPossible(es) && Run(es).session.Some?
    ensures Run(es).locked
    ensures AllPossible(es + [Crash])
    ensures Run(es + [Crash]) == Run(es).(session := None)
  {
    hide Run;
    RunKeepsInv(es);
    RunSnoc(es, Crash);
  }

  lemma SessionLocked(w: World)
    requires Inv(w) && w.session.Some?
    ensures w.locked
  {
  }

  /** A session's file opens as it stands once nobody holds the lock. */
  lemma FileReopens(w: World, maxRetained: nat, now: U64)
    requires Inv(w) && w.session.Some?
    ensures CheckHeader(w.disk).Ok?
    ensures var idle := w.(session := None, locked := false);
            Opening(idle, maxRetained, now)
            == w.(locked := true, session := Some(Session(OnDisk(w.disk), maxRetained, false)))
  {
    hide Header, CheckHeader, Scan, Mirrors, NormaliseAll, LastN;
    CleanHasHeader(w.disk);
    assert w.disk[..|w.disk|] == w.disk;
  }

  /**
   * Closing gives the lock back and loses nothing: the next opening succeeds,
   * leaves every byte in place and holds exactly the entries on disk.
   */
  lemma CloseThenOpen(es: seq<Event>, maxRetained: nat, now: U64)
    requires AllPossible(es) && Run(es).session.Some?
    ensures CheckHeader(Run(es).disk).Ok? && AllPossible(es + [Close] + [Open(maxRetained, now)])
    ensures !Run(es + [Close]).locked
    ensures Run(es + [Close] + [Open(maxRetained, now)])
            == Run(es).(session := Some(Session(OnDisk(Run(es).disk), maxRetained, false)))
  {
    hide Run, Opening, Inv, OnDisk;
    RunKeepsInv(es);
    RunSnoc(es, Close);
    RunSnoc(es + [Close], Open(maxRetained, now));
    FileReopens(Run(es), maxRetained, now);
    SessionLocked(Run(es));
  }

  /** So does a killed process, once somebody deletes its lock file. */
  lemma CrashUnlockThenOpen(es: seq<Event>, maxRetained: nat, now: U64)
    requires AllPossible(es) && Run(es).session.Some?
    ensures CheckHeader(Run(es).disk).Ok? && AllPossible(es + [Crash] + [Unlock] + [Open(maxRetained, now)])
    ensures Run(es + [Crash] + [Unlock] + [Open(maxRetained, now)])
            == Run(es).(session := Some(Session(OnDisk(Run(es).disk), maxRetained, false)))
  {
    hide Run, Opening, Inv, OnDisk;
    RunKeepsInv(es);
    RunSnoc(es, Crash);
    RunSnoc(es + [Crash], Unlock);
    RunSnoc(es + [Crash] + [Unlock], Open(maxRetained, now));
    FileReopens(Run(es), maxRetained, now);
    SessionLocked(Run(es));
  }

  /** An opening cut off at any point, unlocked and repeated, ends as if it had not been cut off. */
  lemma CrashOpeningThenOpen(w: World, first: U64, n: nat, maxRetained: nat, now: U64)
    requires w.session.None? && !w.locked && CheckHeader(w.disk).Ok?
    ensures var cut := Step(Step(w, CrashOpening(first, n)), Unlock);
            !cut.locked && Opening(cut, maxRetained, now) == Opening(w, maxRetained, now)
  {
    hide Scan, Header, OnDisk, CheckHeader;
    OpenedIsClean(w.disk, first);
    CheckedNotEmpty(w.disk);
  }

  lemma CheckedNotEmpty(data: seq<Byte>)
    requires CheckHeader(data).Ok?
    ensures data != []
  {
  }

  lemma StaleLockStays(w: World, e: Event)
    requires w.locked && w.session.None? && Possible(e) && !e.Unlock?
    ensures Step(w, e) == w
  {
    hide Header, OpenBytes;
  }

  /** Until somebody deletes a stale lock file, no event opens the journal or changes anything. */
  lemma {:induction false} StaleLockBlocks(es: seq<Event>, later: seq<Event>)
    requires AllPossible(es) && AllPossible(later) && Unlock !in later
    requires Run(es).locked && Run(es).session.None?
    ensures AllPossible(es + later) && Run(es + later) == Run(es)
    decreases |later|
  {
    hide Run, Step, Possible;
    if later == [] {
      assert es + later == es;
    } else {
      var front, e := later[..|later| - 1], later[|later| - 1];
      assert e in later && forall x :: x in front ==> x in later;
      StaleLockBlocks(es, front);
      assert es + later == (es + front) + [e];
      RunSnoc(es + front, e);
      StaleLockStays(Run(es + front), e);
    }
  }

  // ---------------------------------------------------------------------
  // The life that loses history: a process compacts and stops, another starts.

  function Writes(tl: Timeline, now: U64): (es: seq<Event>)
    ensures |es| == |tl| && forall i :: 0 <= i < |tl| ==> es[i] == Write(tl[i], now)
  {
    seq(|tl|, i requires 0 <= i < |tl| => Write(tl[i], now))
  }

  /** Everything is written, compaction keeps the last entries, and the journal is closed and reopened. */
  function CompactedLife(dropped: Timeline, kept: Timeline, now: U64): seq<Event> {
    [Open(|kept|, now)] + Writes(dropped + kept, now) + [Compact(now)] + [Close] + [Open(|kept|, now)]
  }

  /** The session's history and what was issued, each extended by the entries written. */
  predicate Wrote(before: World, after: World, tl: Timeline) {
    && before.session.Some? && after.session.Some?
    && after.session.value == before.session.value.(timeline := before.session.value.timeline + tl)
    && after.issued == before.issued + tl
    && after.dropped == before.dropped && after.locked == before.locked
  }

  lemma WroteMore(before: World, mid: World, after: World, tl: Timeline, e: HistoryEntry)
    requires Wrote(before, mid, tl) && Wrote(mid, after, [e])
    ensures Wrote(before, after, tl + [e])
  {
    var t, i := before.session.value.timeline, before.issued;
    assert t + tl + [e] == t + (tl + [e]) && i + tl + [e] == i + (tl + [e]);
  }

  lemma WroteNothing(w: World)
    requires w.session.Some?
    ensures Wrote(w, w, [])
  {
    assert w.session.value.timeline + [] == w.session.value.timeline && w.issued + [] == w.issued;
  }

  /** Writing adds each entry to the session's history and to what was issued. */
  lemma {:induction false} RunWrites(es: seq<Event>, tl: Timeline, now: U64)
    requires AllPossible(es) && AllEncodable(tl) && Run(es).session.Some?
    ensures AllPossible(es + Writes(tl, now))
    ensures Wrote(Run(es), Run(es + Writes(tl, now)), tl)
    decreases |tl|
  {
    if tl == [] {
      assert es + Writes(tl, now) == es;
      WroteNothing(Run(es));
    } else {
      var front, e := tl[..|tl| - 1], tl[|tl| - 1];
      assert tl == front + [e];
      WritesSnoc(es, front, e, now);
      hide Run, Encodable, Frame, Wrote, AllPossible, Writes;
      RunWrites(es, front, now);
      var mid := es + Writes(front, now);
      WritesOne(mid, e, now);
      WroteMore(Run(es), Run(mid), Run(mid + [Write(e, now)]), front, e);
    }
  }

  lemma WritesSnoc(es: seq<Event>, tl: Timeline, e: HistoryEntry, now: U64)
    ensures es + Writes(tl + [e], now) == es + Writes(tl, now) + [Write(e, now)]
  {
  }

  lemma WritesOne(es: seq<Event>, e: HistoryEntry, now: U64)
    requires AllPossible(es) && Encodable(e) && Run(es).session.Some?
    ensures AllPossible(es + [Write(e, now)])
    ensures Wrote(Run(es), Run(es + [Write(e, now)]), [e])
  {
    hide Run, Encodable, Frame;
    RunSnoc(es, Write(e, now));
  }

  lemma FirstOpen(maxRetained: nat, now: U64)
    ensures var es := [Open(maxRetained, now)];
            && AllPossible(es)
            && Run(es) == World(Header(now), true, Some(Session([], maxRetained, false)), [], 0)
  {
    hide Header;
    RunSnoc([], Open(maxRetained, now));
    assert [] + [Open(maxRetained, now)] == [Open(maxRetained, now)];
  }

  /** The file a compaction with this limit leaves holds exactly the kept entries, as normalised. */
  lemma CompactedHolds(w: World, dropped: Timeline, kept: Timeline, now: U64)
    requires Inv(w) && w.session.Some? && !w.session.value.compacted
    requires w.session.value.timeline == dropped + kept && w.session.value.maxRetained == |kept|
    ensures CleanLog(Compacted(w, now).disk)
    ensures OnDisk(Compacted(w, now).disk) == NormaliseAll(kept)
    ensures Compacted(w, now).session.Some? && Compacted(w, now).locked && Compacted(w, now).issued == w.issued
  {
    hide OnDisk, CheckHeader, CleanLog, Normalise, Header, CompactedBody, Encodable, Mirrors;
    if dropped == [] {
      assert dropped + kept == kept;
    } else {
      assert LastN(dropped + kept, |kept|) == kept;
      CompactedLog(kept, now);
    }
  }

  lemma Reopened(w: World, maxRetained: nat, now: U64)
    requires w.session.None? && !w.locked && CleanLog(w.disk)
    ensures Opening(w, maxRetained, now).session == Some(Session(OnDisk(w.disk), maxRetained, false))
    ensures Opening(w, maxRetained, now).issued == w.issued
  {
    hide Scan, Header;
  }

  /** After that life everything was issued, and the new process holds exactly the kept entries, as normalised. */
  lemma LifeRecovers(dropped: Timeline, kept: Timeline, now: U64)
    requires AllEncodable(dropped) && AllEncodable(kept)
    ensures var es := CompactedLife(dropped, kept, now);
            && AllPossible(es)
            && Run(es).issued == dropped + kept
            && Run(es).session.Some? && Run(es).session.value.timeline == NormaliseAll(kept)
  {
    hide Run, Header, Normalise, CleanLog, OnDisk, Encodable;
    var start, all := [Open(|kept|, now)], dropped + kept;
    FirstOpen(|kept|, now);
    RunWrites(start, all, now);
    var written := start + Writes(all, now);
    assert [] + all == all;
    RunSnoc(written, Compact(now));
    RunSnoc(written + [Compact(now)], Close);
    RunSnoc(written + [Compact(now)] + [Close], Open(|kept|, now));
    RunKeepsInv(written);
    hide Inv;
    CompactedHolds(Run(written), dropped, kept, now);
    Reopened(Run(written + [Compact(now)] + [Close]), |kept|, now);
  }

  /** And it stays that far behind what was issued, whatever is written later. */
  lemma LifeContinues(dropped: Timeline, kept: Timeline, later: Timeline, now: U64)
    requires AllEncodable(dropped) && AllEncodable(kept) && AllEncodable(later)
    ensures var es := CompactedLife(dropped, kept, now) + Writes(later, now);
            && AllPossible(es)
            && Run(es).issued == dropped + kept + later
            && Run(es).session.Some? && Run(es).session.value.timeline == NormaliseAll(kept) + later
  {
    hide Run, CompactedLife, NormaliseAll, Encodable;
    LifeRecovers(dropped, kept, now);
    RunWrites(CompactedLife(dropped, kept, now), later, now);
  }
}
