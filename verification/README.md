# driftbrake, verified

driftbrake halts a trading strategy when what its simulations predict and what
the chain delivers drift apart. This project models its core in Dafny 4.11 and
proves what that core promises. `dafny verify dfyconfig.toml` checks it.

- **Journal** (`Bytes`, `Crc`, `Utf8`, `Records`, `Recovery`, `Journal`,
  `JournalRuns`). The write-ahead log: its checksum, its records, the recovery
  loop over a file with a cursor, compaction by rename, the lock file, and a
  state machine of whole lives of a journal in which a crash may cut any write
  at any byte and leaves its lock behind.
- **Policy** (`History`, `Policy`, `Reasons`, `Bleed`, `Survival`, `ShortHistory`,
  `Guards`, `Tightening`, `SlowWindow`, `Overflow`). The append-only history and
  the six guards. Each guard is stated without division or iteration; evaluation
  is proved to report the first guard that trips, and what it reports is proved
  to be what happened.
- **Both together** (`Restart`). Bytes on disk to recovered history to the same
  decision, and bounds on losses over a sequence of supervised processes.
- **Replay** (`Replay`, `Columns`, `Batch`, `Bench`). The two engines that drive the policy
  over prefixes of a trade list.
- **Encoders and protocols** (`Rlp`, `TxPayload`, `Words`, `Rng`, `Permits`).
- `Arith` and `Samples` hold named products and witness timelines for the rest.

## Where to start

- `JournalRuns.RecoversIssued`: after any life of the journal, however it
  crashed, reopening recovers exactly the recorded events but for those that a
  compaction dropped; `JournalRuns.OnlyCompactionDrops` says which those are.
- `Restart.SupervisedAcrossRestarts`: processes that each decide on what their
  own journal recovered are together as good as one process that never stopped,
  as long as each holds all that was issued or enough to fill the policy's
  windows; `Restart.ContinuingIsNotEnough` is a life that shows this is needed.
- `Recovery.BurstStopsRecovery`: a burst of up to 32 bits inside the log is
  always caught, and costs exactly the records from there on.
- `Restart.NeverFalselyHalted`: what the journal forgets never makes a process
  halt that should not; `Restart.SupervisedExactly` turns supervision into an
  if and only if.
- `Survival.*SurvivesExactly` and `Survival.OutcomeSurvivesExactly`: for each
  guard and for the policy as a whole, the exact condition on what compaction
  keeps under which it cannot tell; `Restart.LivesAgreeExactly` and
  `Restart.OutcomesAgreeExactly`: the same over lives of the journal.
- `SlowWindow.SlowWindowShrinksSafelyExactly` and `Bench.SlowWindowRatesExactly`:
  shortening the slow window of the two-guard policy loses no catch exactly when
  the new window divides the old.

## How the source is read

- Ratios, thresholds and rates are `real`; profits, fees and counts are
  unbounded integers. `Overflow` says exactly when the 128-bit sums agree with
  them, wrapping or checked. Journal fields and RLP lengths have the source's
  widths.
- A text is a byte string that is valid UTF-8. Clock values are parameters.
- A file object is the bytes plus the one handle the lock file allows. Renaming
  is atomic, a process does not go on after a failed write, and nobody deletes
  the lock file of a running process.
- The policy's `assert!`s are preconditions of its constructors, except in the
  Python sweep, where a zero revert limit is an outcome of its own. The debug
  assertion that the slow threshold exceeds the fast one
  (reconcile/src/lib.rs:150-156) is not one of them: it is a hypothesis of the
  theorems that need it.
- The state machine of `JournalRuns` uses the very functions (`Frame`,
  `OpenBytes`, `CompactedBody`) that the contracts of the journal's methods
  equate the file with.

## Where the code and its documents differ

The model follows the code.

- `docs/whitepaper.md:184-194` defines drawdown by a profit watermark; the code
  sums predicted minus realized over a window (reconcile/src/lib.rs:277-298).
- `docs/whitepaper.md:149-153` budgets gas units; the code budgets gas used
  times price (core/src/types.rs:159-171).
- `docs/whitepaper.md:233-234` says the fast guard always adds coverage. It does
  exactly when the slow window is the longer one
  (`Guards.FastAddsCoverageExactly`).
- `docs/whitepaper.md:197-203` (section 4.7) evaluates burst, gas, fast, slow,
  VWAR, drawdown in this order; the code evaluates burst, gas, fast, drawdown,
  VWAR, slow (reconcile/src/lib.rs:242-337). Whether a history halts does not
  depend on the order, the reported reason does.
- `docs/BENCHMARK.md:12` says reducing window sizes decreases missed catches and
  increases false halts. For the fast window it does (`Bench.TighterReport`);
  for the slow one, with every fast guard beside it, exactly when the new window
  divides the old (`Bench.SlowWindowRatesExactly`).
- `docs/whitepaper.md:241-242` (Property 4) says an insufficient history,
  n < k_f, always continues and no evaluation can panic. It continues exactly
  when every guard that can trip at all waits for k_f pairs
  (`ShortHistory.WaitsExactly` with n = k_f): so not with a burst guard, nor a
  gas budget within reach, nor a slow, weighted or drawdown window below k_f. No division by zero is
  possible, but a debug build panics when a sum overflows; `Overflow` says when.
- `docs/BENCHMARK.md:21` names an Xorshift generator; the code is SplitMix64.
- `journal/src/lib.rs:4-6` promises that windows are never wiped out by process
  recycling. Without compaction that holds. After one it fails:
  `Restart.CompactionForgets` is a life of the journal after which the new
  process continues where the full history halts, and
  `Restart.OutcomesAgreeExactly` gives the exact condition. A crash while the header of a new journal is being
  written leaves a file that never opens again
  (`JournalRuns.PartialHeaderIsForever`), though nothing is lost by it.
- `docs/ARCHITECTURE.md:110` says process crashes must not erase risk state. A
  killed process leaves its lock file, and until somebody deletes that by hand
  no process can open the journal (`JournalRuns.StaleLockBlocks`).

## Model

| member | source | states |
|---|---|---|
| `Crc.Crc32` | journal/src/lib.rs:43-56 | the nested-loop checksum returns the complement of a 32-bit register fed every message bit, least significant bit of each byte first |
| `Crc.CheckValue` | journal/src/lib.rs:43-56 | the checksum of the nine digits `123456789` is 0xCBF43926, the check value of this CRC |
| `Crc.StepInjective` | journal/src/lib.rs:47-53 | the bit step loses nothing: two registers that step alike are equal |
| `Crc.FeedPacked` | journal/src/lib.rs:45-54 | feeding up to 32 bits one at a time equals xoring them in at once and stepping that often; the byte loop is the case of 8 |
| `Crc.BitBurst` | journal/src/lib.rs:43-56 | from any start value, two equally long bit strings that differ, and only within 32 consecutive bits, leave different registers |
| `Crc.BurstDetected` | journal/src/lib.rs:43-56 | two equally long payloads that differ, and only within 32 consecutive bits, never have the same checksum |
| `Crc.WordRoundTrip` | journal/src/lib.rs:161 | the checksum field reads back as the checksum that was written |
| `Crc.WordOctets` | journal/src/lib.rs:268 | the checksum field holds the word's octets from the most significant down |
| `Bytes.FromToBE` | journal/src/lib.rs:160 | a big-endian field reads back as the number written |
| `Bytes.BEDigit` | journal/src/lib.rs:266-268 | octet i of a k-octet field is the base-256 digit of weight 256^(k-1-i) |
| `Bytes.I128RoundTrip` | journal/src/lib.rs:177-183 | every signed 128-bit value survives its 16-byte two's complement encoding |
| `Utf8.CutIsValid` | journal/src/lib.rs:208-212 | cutting a valid text leaves a valid text exactly when the cut is at a character boundary |
| `Utf8.ValidExactly` | journal/src/lib.rs:208-212 | an octet string is taken for a text exactly when it encodes some sequence of Unicode scalar values |
| `Records.RecordRoundTrip` | journal/src/lib.rs:174-222 | a payload written for any entry decodes to that entry, except that the revert reason is normalised |
| `Records.RevertLayout` | journal/src/lib.rs:287-294 | each field of a revert payload lies at the offsets the recovery code reads |
| `Records.PairOctets` | journal/src/lib.rs:255-276 | the frame of a pair, octet by octet: tag 1, length 40, checksum, both profits modulo 2^128, the time |
| `Records.RevertOctets` | journal/src/lib.rs:282-309 | the frame of a revert, octet by octet: tag 2, length, checksum, hash, block, gas used, gas price, the time, and the reason's length and at most 65535 octets |
| `Records.DecodesExactly` | journal/src/lib.rs:174-229 | a payload is a record exactly with 40 octets under tag 1 or at least 74 under tag 2 |
| `Records.PairFields` | journal/src/lib.rs:177-186 | any such pair payload decodes to the pair whose profits its first two fields encode |
| `Records.RevertFields` | journal/src/lib.rs:188-222 | any such revert payload decodes to the event whose fields it encodes, without a reason if that is empty, does not fit or is not valid UTF-8 |
| `Records.ReasonKeptExactly` | journal/src/lib.rs:284-285 | a revert reason comes back unchanged exactly when it has between 1 and 65535 bytes |
| `Records.LongReasonCutOrLost` | journal/src/lib.rs:208-212 | a longer reason comes back cut to 65535 bytes if the next byte starts a character, and is lost otherwise |
| `Records.DecodedIsEncodable` | journal/src/lib.rs:174-222 | whatever recovery decodes fits the source's integer widths and is already in normal form |
| `Recovery.ScanSplits` | journal/src/lib.rs:144-239 | what recovery keeps of arbitrary bytes splits into valid frames holding the recovered entries |
| `Recovery.KeptIsGreatest` | journal/src/lib.rs:144-239 | no longer prefix splits into valid frames, and every shorter one holds a prefix of the recovered entries |
| `Recovery.ScanIdempotent` | journal/src/lib.rs:144-239 | recovering what was kept gives the same entries and keeps all of it |
| `Recovery.LogUnique` | journal/src/lib.rs:144-239 | a byte string splits into valid frames with at most one sequence of entries |
| `Recovery.TornFrame` | journal/src/lib.rs:147-157 | a frame cut short anywhere is recognised as torn |
| `Recovery.CutAnywhere` | journal/src/lib.rs:146-239 | a log body cut at any byte recovers exactly the records whose frames are complete and keeps exactly their bytes |
| `Recovery.LongerNeverRecoversLess` | journal/src/lib.rs:146-239 | of any bytes, a longer prefix never recovers fewer records nor keeps less |
| `Recovery.BurstStopsRecovery` | journal/src/lib.rs:163-172 | a change of one payload within 32 consecutive bits makes recovery return exactly the earlier records and truncate there |
| `Recovery.ChecksumFieldStopsRecovery` | journal/src/lib.rs:161-172 | so does any change of a checksum field's value |
| `Recovery.TagStopsRecovery` | journal/src/lib.rs:175-229 | so does any change of a tag: no payload length is valid under two tags |
| `Journal.OpenedIsClean` | journal/src/lib.rs:111-243 | opening succeeds exactly on an empty file or a good header; the file is then all valid frames for the recovered entries, and opening again changes nothing |
| `Journal.HeaderDecides` | journal/src/lib.rs:131-142 | on the octets: fewer than 16 give the end-of-file error; otherwise a file opens exactly if it starts with 44 52 46 54 00 01, other first four octets give the magic error, and another version its number |
| `Journal.HeaderOctets` | journal/src/lib.rs:121-129 | a new journal starts with 44 52 46 54 00 01 00 00 and the time in eight octets |
| `Journal.CrashAtAnyByte` | journal/src/lib.rs:118-239 | a written log cut at any byte opens as new (no bytes), fails (inside the header), or yields exactly the complete records with the file cut after them |
| `Journal.AppendExtends` | journal/src/lib.rs:266-275 | appending a frame to a clean log adds exactly that entry, as normalised |
| `Journal.CompactedLog` | journal/src/lib.rs:330-379 | the rewritten file is a clean log of exactly the entries given to it |
| `Journal.CompactedOctets` | journal/src/lib.rs:338-379 | the rewritten body is the entries' frames in order, each with a zero timestamp |
| `Journal.OpenOrCreate` | journal/src/lib.rs:88-252 | an existing lock file gives its error and touches nothing; otherwise the header errors, decided by the file's first octets and leaving it unchanged, the recovery, the truncation and the resulting object, over a mutable file and directory entry, with the lock held afterwards exactly on success |
| `Journal.Replay` | journal/src/lib.rs:144-239 | the recovery loop fills the history with exactly the scanned entries and truncates the file to the kept length |
| `Journal.ReadRecord` | journal/src/lib.rs:146-229 | one turn of the loop yields a record exactly when the bytes at the cursor parse as one, and moves past it |
| `Journal.JournaledHistory.Append` | journal/src/lib.rs:255-279 | writes exactly one frame, extends the history by the pair, and keeps the file mirroring the history |
| `Journal.JournaledHistory.RecordRevert` | journal/src/lib.rs:282-309 | the same for a revert; the file gains its normalised form |
| `Journal.JournaledHistory.Compact` | journal/src/lib.rs:317-393 | at or under the limit nothing changes; over it the path names a fresh file holding exactly the newest entries up to the limit, and memory is untouched |
| `Journal.JournaledHistory.Close` | journal/src/lib.rs:65-73 | dropping the journal removes the lock file and touches nothing else |
| `Journal.AppendMirrors` | journal/src/lib.rs:255-309 | writing keeps the file a suffix of the history no shorter than the retention limit allows |
| `Journal.CompactMirrors` | journal/src/lib.rs:337-379 | so does compaction |
| `JournalRuns.StepKeepsInv` | journal/src/lib.rs:88-393 | the journal invariant is kept by every open, write, compaction, close, lock removal and crash at any byte |
| `JournalRuns.RunKeepsInv` | journal/src/lib.rs:88-393 | so it holds after every sequence of events from a missing file |
| `JournalRuns.RecoversIssued` | journal/src/lib.rs:88-393 | after any such life, reopening, once no stale lock is in the way, recovers exactly the issued events but for the oldest ones that compactions dropped, in order, as normalised |
| `JournalRuns.OnlyCompactionDrops` | journal/src/lib.rs:317-393 | only a compaction that is due and reaches its renaming drops anything: then everything issued before the newest entries up to its limit, and never less than was dropped before |
| `JournalRuns.LaterNeverDropped` | journal/src/lib.rs:255-309 | while no compaction runs, opens, writes, closes and crashes drop nothing: nothing written after the last compaction is ever lost |
| `JournalRuns.SessionMirrored` | journal/src/lib.rs:255-393 | while a session runs its file holds a suffix of its history, and the whole of it until it compacts |
| `JournalRuns.OpenFailsExactly` | journal/src/lib.rs:95-142 | a journal fails to open exactly when the lock file exists or a crash left part of a header, each with its own error, and in the latter case nothing had been recorded |
| `JournalRuns.PartialHeaderIsForever` | journal/src/lib.rs:131-142 | no later event repairs a partial header, opens a session over it or records an entry |
| `JournalRuns.PartialHeaderReached` | journal/src/lib.rs:121-129 | a crash inside the first header write leaves one |
| `JournalRuns.KilledLeavesLock` | journal/src/lib.rs:65-107 | a session runs only behind the lock, and a killed process leaves it |
| `JournalRuns.StaleLockBlocks` | journal/src/lib.rs:95-107 | until somebody deletes a stale lock file, no sequence of events opens the journal or changes anything |
| `JournalRuns.CloseThenOpen` | journal/src/lib.rs:65-142 | after any life, closing gives the lock back and the next opening succeeds, leaves every byte in place and holds exactly the entries on disk |
| `JournalRuns.CrashUnlockThenOpen` | journal/src/lib.rs:95-142 | so it is after a killed process, once somebody has deleted its lock file |
| `JournalRuns.CrashOpeningThenOpen` | journal/src/lib.rs:111-249 | an opening of an existing journal that is cut off anywhere, unlocked and repeated ends as if it had not been cut off |
| `JournalRuns.LifeRecovers` | journal/src/lib.rs:317-393 | for all encodable entries: after writing them all, compacting to the last of them, closing and reopening, all were issued and the new process holds exactly the kept ones, as normalised |
| `JournalRuns.LifeContinues` | journal/src/lib.rs:317-393 | whatever is written after that, the new process stays exactly the dropped entries behind what was issued |
| `Restart.NormaliseDecides` | reconcile/src/lib.rs:241-340 | no decision depends on what journal normalisation changes |
| `Restart.RestartKeepsDecisions` | reconcile/src/lib.rs:241-340 | from any life of the journal, decisions after a restart equal those on all issued events, reason and numbers included, for every later sequence, if nothing was dropped or the recovered entries fill the policy's windows |
| `Restart.RestartKeepsOutcome` | reconcile/src/lib.rs:241-340 | from any life, compactions included, the restarted process halts exactly when one that forgot nothing would, now and after any later entries within the limits, if every guard is immune on what was recovered |
| `Restart.SupervisedAcrossRestarts` | reconcile/src/lib.rs:241-340 | if after every event the running process was told to continue, and held all that was issued or enough to fill the policy's windows, the history issued over all processes was never halted at any point |
| `Restart.NeverFalselyHalted` | journal/src/lib.rs:4-6 | over every life, compactions and crashes included, a process told to halt on what it holds would be told so on all that was issued |
| `Restart.SupervisedExactly` | reconcile/src/lib.rs:241-340 | as long as every process holds all that was issued or enough to fill the windows, each is told to continue after every event exactly when the history issued over all of them was never halted |
| `Restart.ContinuingIsNotEnough` | journal/src/lib.rs:4-6 | the second condition is needed: in a life of two processes each is told to continue after every event, and what they issued together passes a halt |
| `Restart.NewJournalIsSupervised` | journal/src/lib.rs:121-129 | a newly created journal starts out so supervised under every policy: an empty history is never halted |
| `Restart.LossBoundAcrossRestarts` | reconcile/src/lib.rs:242-337 | under the conditions of `SupervisedAcrossRestarts` each of the six bounds on unhalted runs holds over all processes together, for every guard that is enabled |
| `Restart.CompactionForgets` | journal/src/lib.rs:4-6 | a life of the journal after which the new process is told to continue although all that was issued calls for a halt |
| `Restart.LivesAgreeExactly` | journal/src/lib.rs:4-6 | for each guard: over all lives that write, compact, close, reopen and go on writing, the new process trips as the full history does exactly when the guard is immune on what was kept |
| `Restart.OutcomesAgreeExactly` | journal/src/lib.rs:4-6 | for the whole policy: if it continues on what was kept, then over all such lives the new process halts as the full history would exactly when every guard is immune on what was kept |
| `Restart.OpenAndEvaluate` | docs/API.md:101-116 | opening a journal, evaluating its history and dropping it gives the decision on the recovered entries and leaves the lock as it was |
| `History.ReconcileHistory.Append` | core/src/types.rs:129-135 | extends the timeline and the pairs by the pair, and the reverts not at all |
| `History.ReconcileHistory.RecordRevert` | core/src/types.rs:139-144 | extends the timeline and the reverts by exactly this event, and the pairs not at all |
| `History.SplitByKind` | core/src/types.rs:129-144 | each entry of the timeline is found again, unaltered, at its position among the reverts or among the pairs, and nothing else is there |
| `History.PositiveInOrder` | core/src/types.rs:183-194 | the pairs the ratio guards see are exactly those with a positive prediction, in order |
| `History.ReconcileHistory.ConsecutiveReverts` | core/src/types.rs:147-156 | counts the reverts that end the timeline |
| `History.TrailingRevertsUnique` | core/src/types.rs:147-156 | that count is the one length with only reverts after it and a pair, if anything, before |
| `History.ReconcileHistory.RecentRevertGasBurned` | core/src/types.rs:159-171 | sums gas used times price over the reverts among the last entries |
| `Policy.NewPolicy` | reconcile/src/lib.rs:141-165 | positive windows give a well-formed policy with the four optional guards off |
| `Policy.ConstructorsReachAll` | reconcile/src/lib.rs:141-194 | the constructor and the four builders reach every well-formed policy |
| `Policy.Evaluate` | reconcile/src/lib.rs:241-340 | evaluation returns the reason of the first tripped guard in order, or Continue |
| `Policy.DecideHalts` | reconcile/src/lib.rs:241-340 | the decision is a halt exactly when some guard trips |
| `Policy.DecideIsFirstTripped` | reconcile/src/lib.rs:241-340 | and then names the one no earlier guard pre-empts |
| `Reasons.ContinuesExactly` | reconcile/src/lib.rs:241-340 | it is Continue exactly when all six guards are off, each stated on the history itself |
| `Reasons.BurstReason` | reconcile/src/lib.rs:242-251 | a burst halt reports the number of reverts that end the history and the configured limit, which they reach |
| `Reasons.GasReason` | reconcile/src/lib.rs:253-263 | a gas halt reports the fees of the window's reverts, above the configured budget it quotes; the burst guard is off |
| `Reasons.FastReason` | reconcile/src/lib.rs:265-275 | a fast halt reports the newest ratios, oldest first, each realized over predicted and below the configured threshold it quotes; both earlier guards are off |
| `Reasons.DrawdownReason` | reconcile/src/lib.rs:277-298 | a drawdown halt reports predicted minus realized of the window, above the configured cap it quotes; the three earlier guards are off |
| `Reasons.VolumeReason` | reconcile/src/lib.rs:300-323 | a weighted halt reports realized over predicted of the window, below the configured threshold it quotes; the four earlier guards are off |
| `Reasons.SlowReason` | reconcile/src/lib.rs:325-337 | a slow halt reports the mean of the newest ratios, below the configured threshold it quotes; all other guards are off |
| `Policy.CheckFast` | reconcile/src/lib.rs:265-275 | the fast guard's comparison of ratios agrees with its statement without division |
| `Policy.CheckVolume` | reconcile/src/lib.rs:300-323 | the weighted guard's quotient test agrees with its statement without division; the sum of positive predictions is never zero |
| `Policy.CheckSlow` | reconcile/src/lib.rs:325-337 | the slow guard's mean test agrees with its statement without division |
| `Policy.BurstByCount` | reconcile/src/lib.rs:242-251 | the count reaches the limit exactly when the last `limit` entries exist and are all reverts |
| `Bleed.BoundedVolumeBleed` | reconcile/src/lib.rs:300-323 | a run never halted has realized, over its last whole windows of positive-prediction pairs, at least the threshold share of what was predicted |
| `Bleed.BoundedSlippage` | reconcile/src/lib.rs:277-298 | its total slippage is at most one cap per whole window plus that of the first few pairs |
| `Bleed.BoundedRevertGas` | reconcile/src/lib.rs:253-263 | its revert fees are at most one budget per window of entries, rounded up |
| `Bleed.BoundedReverts` | reconcile/src/lib.rs:242-251 | its reverts number at most limit minus one for each confirmed pair and once more |
| `Bleed.BoundedFastBleed` | reconcile/src/lib.rs:265-275 | at least one pair per whole fast window kept up with the fast threshold |
| `Bleed.BoundedSlowBleed` | reconcile/src/lib.rs:325-337 | over its last whole slow windows the ratios sum to at least the slow threshold each |
| `Survival.BurstSurvivesExactly` | reconcile/src/lib.rs:242-251 | the burst guard never notices dropped entries, for any dropped and any later entries within the limits, exactly when the kept ones reach the limit or hold a pair |
| `Survival.GasSurvivesExactly` | reconcile/src/lib.rs:253-263 | the gas guard: exactly when the kept entries fill the window, or already exceed the budget, or with the greatest fees in the rest of the window still would not |
| `Survival.FastSurvivesExactly` | reconcile/src/lib.rs:265-275 | the fast guard: exactly when the kept positive pairs fill the window, or one of them keeps up, or no pair within the limits can fall below the threshold |
| `Survival.DrawdownSurvivesExactly` | reconcile/src/lib.rs:277-298 | the drawdown guard: exactly when the kept pairs fill the window, or with the greatest losses in the rest of it would not exceed the cap |
| `Survival.VolumeSurvivesExactly` | reconcile/src/lib.rs:300-323 | the weighted guard: exactly when the kept positive pairs fill the window, or the worst pairs in the rest of it could not bring it below the threshold |
| `Survival.SlowSurvivesExactly` | reconcile/src/lib.rs:325-337 | the slow guard: exactly when the kept positive pairs fill the window, or the worst ratios in the rest of it could not bring the mean below the threshold |
| `Survival.OutcomeSurvivesExactly` | reconcile/src/lib.rs:241-340 | if the policy continues on the kept entries, whether it halts never depends on what was dropped, for any later entries, exactly when every guard is immune on them |
| `Survival.OutcomeSurvivesFrom` | reconcile/src/lib.rs:241-340 | for any kept entries: exactly when every guard is immune at each later point where the policy would continue |
| `Survival.SuffixHalts` | reconcile/src/lib.rs:241-340 | whatever halts on the newest entries of a history halts on the whole of it |
| `Survival.DecisionSurvives` | reconcile/src/lib.rs:241-340 | if the kept entries fill every window, every later decision is the same, reason and numbers included |
| `ShortHistory.WaitsExactly` | docs/whitepaper.md:241-242 | histories within the limits with fewer than n pairs always continue exactly when every guard that can trip at all waits for n pairs; n = k_f is Property 4 |
| `ShortHistory.RevertsHaltWithoutPairs` | reconcile/src/lib.rs:242-251 | so with a revert-burst guard some history shorter than the fast window halts |
| `Guards.FastAddsCoverageExactly` | docs/whitepaper.md:233-234 | for T_f < T_s, a history long enough for both guards on which only the fast one trips exists exactly when k_s > k_f |
| `Guards.SlowAddsCoverage` | docs/whitepaper.md:233-234 | for T_f < T_s and any windows, a history on which only the slow guard trips exists |
| `Guards.FastImpliesSlow` | reconcile/src/lib.rs:265-337 | with k_s at most k_f and T_f at most T_s, whatever trips the fast guard trips the slow one |
| `Guards.FastAddsToVolumeExactly` | reconcile/src/lib.rs:265-323 | for T_f at most T_v, the fast guard adds coverage to the weighted one exactly when k_v > k_f |
| `Guards.FastImpliesVolume` | reconcile/src/lib.rs:265-323 | with k_v at most k_f and T_f at most T_v, whatever trips the fast guard trips the weighted one |
| `Guards.WeightedBetween` | reconcile/src/lib.rs:310-313 | the weighted ratio lies between the least and the greatest ratio of its window |
| `Guards.WeightedIsMean` | reconcile/src/lib.rs:310-313 | with equal predictions it is their mean ratio |
| `Guards.VolumeIsRelativeSlippage` | reconcile/src/lib.rs:277-323 | the weighted guard trips exactly when the window's slippage exceeds (1 - T_v) times its predictions |
| `Tightening.TighterHalts` | docs/whitepaper.md:236-239 | raising a threshold, shrinking the fast window, lowering a limit, budget or cap, or enabling a guard never un-halts a history |
| `SlowWindow.SlowWindowShrinksSafelyExactly` | benchmark/src/sweep.rs:35-44 | with the thresholds in the asserted order, for every fast guard: every history the two-guard policy halts on somewhere with the longer slow window it also halts on with the shorter, exactly when the shorter divides the longer |
| `SlowWindow.SlowWindowShrinksSafelyInWidth` | benchmark/src/sweep.rs:35-44 | the same over histories of 128-bit profits, for all thresholds and windows that are not so extreme that the exhibited profits would not fit |
| `SlowWindow.DefaultsInWidth` | benchmark/src/sweep.rs:48-85 | thresholds 0.5 and 0.7 with windows 3 and 20 are not so extreme, whatever the shorter window |
| `SlowWindow.MissedByShorter` | benchmark/src/sweep.rs:35-44 | for every other pair of windows, a run the policy with the longer window halts on and the one with the shorter never does, its fast guard included; its profits fit 128 bits unless thresholds or windows are extreme |
| `Replay.TighterHaltsNoLater` | benchmark/src/sweep.rs:35-44 | over a whole replay, tightening never delays the first halt |
| `Replay.TighterHaltsMore` | driftbrake-py/src/batch.rs:88-115 | over a whole replay, tightening never lowers the number of halting prefixes or the drawdown credited to them |
| `Batch.RunSweepRaw` | driftbrake-py/src/batch.rs:45-132 | columns of unequal length give the error, a zero limit on the grid the panic; otherwise one row per grid point in loop order, each saying what the columns say: which rows halt by the last reverts, the last three or the last twenty good rows, how many, the first, and the losses there |
| `Batch.HaltsFromColumns` | driftbrake-py/src/batch.rs:72-104 | event i halts exactly if the last `limit` rows are reverts, the last three rows with positive predictions each realized less than the fast threshold's share, or the last twenty on average less than the slow one's |
| `Batch.RowFromColumns` | driftbrake-py/src/batch.rs:83-126 | so each row's halt count, first halt and drawdown are those of the columns |
| `Batch.ReplayRow` | driftbrake-py/src/batch.rs:83-115 | the three accumulators equal the number of halting prefixes, the first of them, and the shortfalls of the losing pairs at them |
| `Batch.GridHolds` | driftbrake-py/src/batch.rs:64-70 | the grid holds exactly the combinations whose fast threshold is below the slow one |
| `Batch.GridInLoopOrder` | driftbrake-py/src/batch.rs:64-71 | and in the order of the nested loops, each combination exactly once |
| `Batch.RowSaysUnique` | driftbrake-py/src/batch.rs:117-126 | the account of a row from the columns determines every field of it |
| `Batch.GasNeverMatters` | driftbrake-py/src/batch.rs:88-99 | two tables that differ in their gas columns at most, defaults included, have the same rows |
| `Batch.TighterRow` | driftbrake-py/src/batch.rs:117-126 | a row of a tighter grid point halts no later, no less often, and prevents no less |
| `Bench.RunToFirstHalt` | benchmark/src/sweep.rs:35-44 | returns the length of the shortest part of the sequence that halts, or none if no part does |
| `Bench.Sweep` | benchmark/src/sweep.rs:48-85 | one result per grid point: the share of healthy sequences that halt somewhere, the share of drifted ones that never do, and over the others the mean length of the shortest halting part, none if there are none |
| `Bench.TighterReport` | benchmark/src/sweep.rs:55-82 | raising thresholds and shrinking the fast window never raises the missed-catch rate nor lowers the false-halt rate, on any two batches |
| `Bench.SlowWindowRatesExactly` | docs/BENCHMARK.md:12 | shrinking the slow window does the same, on all batches, exactly when the new window divides the old |
| `Bench.RatesOfMissed` | benchmark/src/sweep.rs:66-74 | when it does not divide, some batch goes from a missed-catch rate of 0 to one of 1 |
| `Bench.EnginesAgree` | driftbrake-py/src/batch.rs:103-109 | without reverts and with the same windows, a batch row's first halt index is i exactly when the benchmark reports i + 1 |
| `Rlp.EncodeItem` | examples/toy-arbitrage/src/rlp.rs:43-66 | the recursive encoder with its payload loop computes the encoding |
| `Rlp.LengthHeader` | examples/toy-arbitrage/src/rlp.rs:72-82 | every header is at least one byte, and its first byte never leaves the byte range |
| `Rlp.StringOctets` | examples/toy-arbitrage/src/rlp.rs:43-82 | the octets of every byte string: itself, 0x80 plus its length and its contents, or 0xb7 plus the number of length digits, those and its contents |
| `Rlp.ListOctets` | examples/toy-arbitrage/src/rlp.rs:48-82 | the same for lists, with 0xc0 and 0xf7 and the lengths of the items' encodings added up |
| `Rlp.DecodeEncoded` | examples/toy-arbitrage/src/rlp.rs:43-82 | the strict decoder returns any encoded item and the bytes after it |
| `Rlp.EncodeDecoded` | examples/toy-arbitrage/src/rlp.rs:43-82 | whatever the strict decoder accepts is the encoding of what it returns, and the rest |
| `Rlp.UniquelyDecodable` | examples/toy-arbitrage/src/rlp.rs:43-82 | two items with suffixes that encode to the same bytes are the same item and the same suffix |
| `Rlp.DecoderAcceptsExactlyEncodings` | examples/toy-arbitrage/src/rlp.rs:43-82 | the strict decoder accepts exactly the encoder's outputs, and inverts them |
| `Rlp.TrimUnique` | examples/toy-arbitrage/src/rlp.rs:34-40 | trimming a fixed-width integer gives the one spelling without leading zeros |
| `TxPayload.NumberSpells` | examples/toy-arbitrage/src/rlp.rs:16-40 | a number is written as the empty string, one octet, or a length prefix and its digits without leading zeros, which denote it |
| `TxPayload.SigningLayout` | examples/toy-arbitrage/src/rpc.rs:401-414 | for every transaction the signing bytes are a list header and nonce, gas price, gas limit, address, value, data, chain id and two empty strings, in this order |
| `TxPayload.SignedLayout` | examples/toy-arbitrage/src/rpc.rs:418-432 | for every transaction and signature the signed bytes are the same fields in order, then v = 35 + 2 * chain id + recovery id modulo 2^64, r and s |
| `TxPayload.SigningReads` | examples/toy-arbitrage/src/rpc.rs:401-414 | decoding the signing bytes gives nine items that denote the fields, the chain id and two zeros |
| `TxPayload.SignedReads` | examples/toy-arbitrage/src/rpc.rs:418-432 | decoding the signed bytes gives nine items that denote the fields, that v, r and s |
| `TxPayload.ReplayProtected` | examples/toy-arbitrage/src/rpc.rs:419 | with recovery id 0 or 1 and no overflow a receiver finds both the chain id and the recovery id in the decoded v |
| `TxPayload.SigningPayloadInjective` | examples/toy-arbitrage/src/rpc.rs:401-414 | the bytes that are hashed and signed determine the whole transaction |
| `TxPayload.SignedTxEqualExactly` | examples/toy-arbitrage/src/rpc.rs:418-432 | two signed transactions have the same bytes exactly when all fields, r, s and v agree |
| `TxPayload.SignedTxInjective` | examples/toy-arbitrage/src/rpc.rs:418-432 | without overflow in v and with recovery id 0 or 1, the signed bytes determine everything that went into them |
| `TxPayload.SignedTxCollisions` | examples/toy-arbitrage/src/rpc.rs:419 | both conditions are needed: recovery id 2 collides with the next chain's 0, and a wrapped v with a chain 2^63 away |
| `TxPayload.SignedNeverSigningExactly` | examples/toy-arbitrage/src/rpc.rs:401-432 | a signed payload equals a signing pre-image only with an all-zero signature, and then exactly when the fields agree and v is the chain id |
| `Rng.Rng.NextU64` | benchmark/src/rng.rs:26-32 | advances the state by the increment and returns its mix |
| `Rng.StreamStarts` | benchmark/src/rng.rs:17-32 | seed 0x9E3779B97F4A7C15 starts from state 0 and yields the first three outputs of the published SplitMix64 sequence |
| `Rng.MixIsPermutation` | benchmark/src/rng.rs:29-31 | the output mix has an explicit inverse on both sides |
| `Rng.OutputsDistinct` | benchmark/src/rng.rs:26-32 | any 2^64 consecutive outputs are pairwise distinct |
| `Rng.OutputsOnto` | benchmark/src/rng.rs:26-32 | and between them take every 64-bit value |
| `Rng.SeedsNeverMeet` | benchmark/src/rng.rs:17-23 | streams from two different seeds differ at every position |
| `Permits.BoundedConcurrency` | revm-backend/src/backend.rs:172-190 | over every interleaving, free and held permits add up to the limit, so no more blocking tasks than the limit run at once |
| `Permits.AdmittedExactly` | revm-backend/src/backend.rs:172-190 | a queued call can be admitted exactly while fewer than `limit` permits are held, and then holds one |
| `Permits.TimedOutCallHolds` | revm-backend/src/backend.rs:214-218 | a timed-out call keeps its permit until its task ends, and returns exactly one then |
| `Permits.HeldUntilFinished` | revm-backend/src/backend.rs:189-209 | no event but the end of its own task returns a permit |
| `Permits.EndedNeverHolds` | revm-backend/src/backend.rs:189-209 | a task that has ended never holds a permit again |
| `Permits.HungTasksStarve` | revm-backend/src/backend.rs:172-218 | with every permit held and no task ending, no call is ever admitted, whatever times out |
| `Permits.QueuedCanProgress` | revm-backend/src/backend.rs:172-177 | a waiting call can be admitted or some task still holds a permit |
| `Permits.HolderCanMove` | revm-backend/src/backend.rs:189-209 | a task that holds a permit can begin or finish, whichever is next |
| `Permits.CallerOutcome` | revm-backend/src/backend.rs:214-222 | a waiting caller can time out exactly while its task holds a permit, and gets its result exactly once it has ended; neither a timeout nor a dropped caller changes who holds |
| `Permits.OutcomeIsFinal` | revm-backend/src/backend.rs:214-222 | what a caller was told, a result, a timeout or nothing because it was dropped, no later event changes |
| `Permits.AllPermitsReturn` | revm-backend/src/backend.rs:189-209 | when no task is left every permit is free |
| `Overflow.WindowSumsFit` | reconcile/src/lib.rs:286-311 | with profits at most 2^127 over twice the window, every single difference and every partial sum of an evaluation fits 128 bits, so nothing overflows |
| `Overflow.MachineSumExactly` | reconcile/src/lib.rs:286-311 | sums wrapped at every step equal the model's exactly when the total fits 128 bits |
| `Overflow.WindowSumsAgree` | reconcile/src/lib.rs:286-311 | so with such profits the wrapped sums of a window are the model's |
| `Overflow.FeeSumsFit` | core/src/types.rs:159-171 | if a window's fees fit 128 bits, so does every partial sum of them |
| `Overflow.MachineFeesExactly` | core/src/types.rs:159-171 | fees multiplied and added with wrap-around equal the model's exactly when their sum fits 128 bits |
| `Overflow.MachinePreventedExactly` | driftbrake-py/src/batch.rs:110-112 | the batch engine's wrapped drawdown accumulator reports the ideal total exactly when that fits 128 bits, and then no difference or partial sum overflows |

## Left out

- Policy.Evaluate: the sums are over unbounded integers and exact reals, so IEEE rounding, not-a-number and 128-bit overflow are not modelled; `Overflow` says when no sum overflows.
- Survival.GasSurvivesExactly: the limits on single fees and profits are parameters; when they are so large that a window's sum may exceed 128 bits, this and the other conditions are about the ideal sums, not the wrapped ones.
- SlowWindow.MissedByShorter: predictions and profits are as large as the gap between the thresholds needs; `SlowWindowShrinksSafelyInWidth` says when that is within 128 bits, and beyond that only the unbounded statement is proved.
- Survival.DecisionSurvives: for the reason and its numbers, that the kept entries fill every window is sufficient; the exact condition is proved for whether the policy halts.
- Batch.ReplayRow: the drawdown column is the ideal total; `Overflow.MachinePreventedExactly` says when the 128-bit accumulator reports it.
- Journal.OpenOrCreate: file permissions, operating-system errors other than an existing lock file and a short read, and two journals whose paths share a lock name are not modelled.
- JournalRuns.StepKeepsInv: a torn write leaves a prefix of its bytes; blocks written out of order, and going on after a failed write, are not modelled.
- Recovery.BurstStopsRecovery: changes of a frame's length field, and errors spread over more than 32 bits, are outside what the checksum promises.
- Permits.BoundedConcurrency: the order in which waiting calls are admitted, the blocking pool's own limit and the timeout's duration are not modelled.
- TxPayload.SigningPayloadInjective: keccak and ECDSA are not part of the model, so it is about the bytes that are hashed.
- The presets `default_dual_guard` and `institutional_default`: constants only.
- `next_f64`, `next_gaussian` and the synthetic sequences: floating point.
- REVM execution, receipt polling, JSON-RPC, ABI decoding, the Python wrappers and the facade crate: plumbing, or single-branch logic that would add only easy members.
