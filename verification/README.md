# Athar: a verified model of the daemon's stateful core

This project models, in Dafny, the parts of Athar whose state is changed in small steps but whose
meaning is simple, and proves that the steps keep the meaning:

- the **segmented evidence log**: framing, rotation, quota, crash quarantine, eviction
  (`Framing`, `EvidenceLog`, `SegmentLogObject`, `Eviction`);
- the **audit hash chain**: records, signed segments, the store on disk, the writer across crashes
  (`AuditChain`, `AuditPersistence`, `AuditWriter`), and the writer over runs in which any write may
  fail (`AuditLosses`);
- the **lifecycle engine** with its two stores and the staleness scanner (`LifecycleTypes`,
  `LifecycleStores`, `LifecycleStoreObjects`, `LifecycleEngine`, `StalenessScanner`,
  `LifecycleObjects`, `LifecycleRuns`), concurrent `apply` calls (`ApplyInterleaving`), and those
  with the scanner, which takes no lock, sweeping between their steps (`SweepInterleaving`);
- the **rolling-window trackers** (`Recency`, `VelocityTracking`, `TargetTracking`);
- the **resource governor** (`Governor`);
- **ingest**: drop counters and evidence-before-audit under every interleaving
  (`IngestInterleaving`), the account of what reached which log (`IngestAccounts`), and the calendar
  arithmetic and text of the timestamps (`Calendar`);
- the **shim's ring buffer** (`ShimBuffering`).

`Common` holds what they share. `dafny verify dfyconfig.toml` checks everything.

## How it is built

Each component has a value model: a state datatype, one function per operation, and a run over any
list of operations. Invariants are proved of every step and every run of that model, and what the
component promises is read off the invariant. Where the source updates an object in place there is
also a class with the same fields, whose methods loop and assign as the source does; each method's
postcondition gives the whole new state as the step function of the old one, so the run theorems
apply to the object. Interleavings are state machines over program counters, with an arbitrary
schedule.

Hashing, signing and signature checking are parameters. No injectivity is assumed of them: results
about tampering say that the verdict is right, or that two particular records at hand have the same
hash. Clocks and the outcome of a file write (it completes, it fails and the process goes on, or the
process dies before or after the rename) are parameters of each step.

## Where the code and its description differ

The model follows the code.

- `daemon/crates/athar-audit/src/lib.rs:7-10` says a chain stays verifiable after redaction, and
  `:305-308` that the commitment becomes a tombstone. The code only sets a flag that is part of the
  hashed bytes, so verification fails at that record (`AuditChain.RedactionBreaksExactly`).
- `daemon/crates/athar-storage/src/segment_log.rs:81` describes `total_bytes` without the quarantined
  files; `:125-126` counts them. The model counts all files (`EvidenceLog.CounterIsSize`).
- `daemon/crates/athar-governor/src/lib.rs:329` says inverted thresholds yield L0; they do not
  (`Governor.IntrinsicMeaning`). The comment at `:319` asks for good news over a whole window; the
  code at `:320` measures the time since the current level was set, and that is what is proved.
- A record of 2^32 bytes or more is framed with a truncated length and does not read back.
  `Framing.FrameFaithfulIff` gives the exact condition; the log results assume a configured record
  bound below it.
- `verify_all` does not fix the ends of the chain: dropping the oldest or the newest segment is
  accepted (`AuditPersistence.EndsMayBeCut`).
- A tracker whose clock goes back keeps stale samples behind fresh ones, and has already pruned
  samples that are fresh again: `VelocityTracking.BackwardClockOvercounts` and
  `BackwardClockUndercounts` are runs of it. `VelocityTracking.ExactThroughoutIff` says exactly which
  clocks keep a window exact, by a condition on the window before each observation, and
  `CountIsOffBy` by how much a count is off. Nondecreasing clocks always fit (`MonotoneFits`). The
  target tracker keeps no stale target, but may miss one: `TargetTracking.CountForAnyClock` gives its
  count for every clock, `CountExactIff` when it is exact, and `BackwardClockMisses` a run that misses
  one.
- A sweep does not take the engine's lock. What one apply between its listing and its write-back
  loses is given exactly by `StalenessScanner.RacingSweepLosesIff`, and for every interleaving of the
  small steps by `SweepInterleaving.EventMissingIff`; `SweepInterleaving.LossIsReached` is a run that
  loses an event. The same race rewrites a closed lifecycle (`StalenessScanner.RacingSweepLosesIff`) and
  reopens one (`SweepInterleaving.ReopenedIff`, reached by `SweepInterleaving.ReopeningIsReached`). The
  theorems on whole runs of both stores take sweeps as atomic.
- An event id that comes again while its own lifecycle is open is appended again and harms no index
  (`LifecycleEngine.RepeatedIdAppendsAgain`). One that comes again and meets another lifecycle does:
  `LifecycleEngine.RedeliveryMayBreak` delivers the very same event twice. `Admissible` is the exact
  condition (`LifecycleEngine.IndexesKeptIff`), and the run theorems ask for no more than that. A
  founding under an id already taken drops the events of the lifecycle it founds over, and no
  other apply drops one (`LifecycleEngine.ApplyDropsIff`, reached by
  `LifecycleEngine.SecondFoundingDrops`).
- The audit writer moves on before its file write, so a write that fails while the process lives on
  leaves a hole. `AuditLosses.RunVerifiesIff` says exactly which runs leave a store that verifies:
  those in which each segment was put on disk by a writer that stood at the newest stored tip, or into
  an empty store. `AuditLosses.LossIsRejected` is a run that ends in a store `verify_all` rejects. Not
  every loss is noticed: none before anything is stored (`AuditLosses.EarlyLossesUnnoticed`), and none
  after which the process restarts before it puts another segment on disk, since a restart takes up the
  newest stored tip (`AuditLosses.RestartLinks`).
  `AuditLosses.EveryRunVerifiesIff` says exactly which runs leave one unbroken chain.
- A coverage-gap summary's bytes need not belong to its frames, and bytes of a drop that is split by
  an emitter may stay unreported; `IngestInterleaving.LastTakeReportsAll` says exactly when.

## Model

| member | source | states |
|---|---|---|
| Framing.EncodeThenParse | daemon/crates/athar-storage/src/segment_log.rs:195-198 | Frames written one after the other read back as exactly the records, whatever bytes follow them |
| Framing.FrameLayout | daemon/crates/athar-storage/src/segment_log.rs:195-196 | A frame is four bytes that hold the record's length, most significant first, and then the record |
| Framing.FrameFaithfulIff | daemon/crates/athar-storage/src/segment_log.rs:195-196 | A frame reads back as its record if and only if the record is shorter than 2^32 bytes |
| Framing.CompleteWithinBrackets | daemon/crates/athar-storage/src/segment_log.rs:315-339 | The count of records complete within a cut is the one whose frames end at or before the cut while the next frame does not |
| Framing.ParsePrefix | daemon/crates/athar-storage/src/segment_log.rs:315-366 | Any byte prefix of an encoded segment parses to the records complete within it, and its tail starts at the torn record |
| Framing.ReadSegmentRecords | daemon/crates/athar-storage/src/segment_log.rs:315-339 | The reader returns all records if at most part of a header is left over, else the corruption error at the torn record's start |
| Framing.CountRecordsBestEffort | daemon/crates/athar-storage/src/segment_log.rs:348-366 | Counts exactly the complete records, whatever follows |
| Framing.ReadTornSegment | daemon/crates/athar-storage/src/segment_log.rs:315-366 | For every cut of an encoded segment: a prefix of the records when the cut is on a boundary or within a header, otherwise corruption at the torn record's offset; the count is the number of complete records |
| EvidenceLog.StepKeeps | daemon/crates/athar-storage/src/segment_log.rs:98-313 | Append, rotate, evict, close, open and crash keep the invariant that files, counters, receipts and appended contents agree |
| EvidenceLog.ReceiptsStayTrue | daemon/crates/athar-storage/src/segment_log.rs:158-208 | After every run, the bytes at a not-evicted receipt still decode to the appended record; after a crash, if they survived it |
| EvidenceLog.ClosedSegmentsExact | daemon/crates/athar-storage/src/segment_log.rs:168-237 | After every run, closed segments parse to exactly their appended records in order, others to a prefix, and each fits the segment bound or holds one record |
| EvidenceLog.OnlyEvictionForgets | daemon/crates/athar-storage/src/segment_log.rs:302-313 | A receipt stops being live if and only if its own segment is evicted |
| EvidenceLog.ReceiptsIncrease | daemon/crates/athar-storage/src/segment_log.rs:158-208 | The receipts of one session strictly increase by segment and offset |
| EvidenceLog.ReopenedAboveAllFiles | daemon/crates/athar-storage/src/segment_log.rs:119-132 | After reopening, the next segment id is above every file still present, and right above the highest |
| EvidenceLog.CounterIsSize | daemon/crates/athar-storage/src/segment_log.rs:119-132 | The byte counter is the size of all active, closed and quarantined files |
| EvidenceLog.QuotaNeverPassed | daemon/crates/athar-storage/src/segment_log.rs:158-208 | A directory within the quota stays within it over every run, and the counter stays equal to its size |
| EvidenceLog.AppendAcceptsIff | daemon/crates/athar-storage/src/segment_log.rs:158-179 | Append refuses exactly a record too large or one that would pass the quota or 64 bits, with the sizes each error reports, and then changes nothing; otherwise the directory grows by one frame |
| EvidenceLog.AppendGoesWhere | daemon/crates/athar-storage/src/segment_log.rs:181-208 | The frame goes right behind the active segment's bytes if it fits there, else into a new segment; no other file's bytes change |
| EvidenceLog.StatesMove | daemon/crates/athar-storage/src/segment_log.rs:212-237 | At every call the active segment is closed, bytes unchanged, exactly by what finishes it (a rotation, a clean close, an accepted record that does not fit), and quarantined by a reopen after a crash; a closed or quarantined one never changes |
| EvidenceLog.FilesComeAndGo | daemon/crates/athar-storage/src/segment_log.rs:212-313 | Only eviction removes a file, and only a closed one; a new file is active under the next id |
| EvidenceLog.QuarantinedIff | daemon/crates/athar-storage/src/segment_log.rs:98-118 | After every run a segment is quarantined if and only if it was at the start or a reopen found it active |
| EvidenceLog.QuarantineNeedsCrash | daemon/crates/athar-storage/src/segment_log.rs:98-118 | A run without a crash leaves no segment quarantined |
| EvidenceLog.ClosedStaysClosed | daemon/crates/athar-storage/src/segment_log.rs:98-118 | Over every run, crashes and reopens included, a closed segment that is not evicted is closed with the same bytes at the end |
| EvidenceLog.OpeningCounts | daemon/crates/athar-storage/src/segment_log.rs:98-132 | Opening counts the whole directory's bytes, and apart from that those of the files a crash left active |
| EvidenceLog.EmptyDirectoryHolds | daemon/crates/athar-storage/src/segment_log.rs:98-142 | The invariant holds of an empty directory, so of every run from one |
| SegmentLogObject.QuarantineLeftovers | daemon/crates/athar-storage/src/segment_log.rs:98-118 | Open quarantines exactly the active files a crash left, and reports their bytes |
| SegmentLogObject.Scan | daemon/crates/athar-storage/src/segment_log.rs:119-132 | The scan finds the total size and the id above all files |
| SegmentLogObject.SegmentLog.Open | daemon/crates/athar-storage/src/segment_log.rs:98-142 | Opening yields the state of the specification from the files found |
| SegmentLogObject.SegmentLog.Append | daemon/crates/athar-storage/src/segment_log.rs:158-208 | Append's whole new state and answer, errors included, are those of the specification step |
| SegmentLogObject.SegmentLog.Rotate | daemon/crates/athar-storage/src/segment_log.rs:212-237 | Rotation's whole new state is that of the specification step |
| SegmentLogObject.SegmentLog.Close | daemon/crates/athar-storage/src/segment_log.rs:248-262 | Closing leaves the files of the specification step |
| SegmentLogObject.SegmentLog.Segments | daemon/crates/athar-storage/src/segment_log.rs:264-300 | Lists every file once, sorted by id, with its state, size and record count |
| SegmentLogObject.SegmentLog.EvictOldestClosed | daemon/crates/athar-storage/src/segment_log.rs:302-313 | Eviction's whole new state and answer are those of the specification step |
| Eviction.EvictManyRemovesLowest | daemon/crates/athar-storage/src/segment_log.rs:302-313 | k evictions remove exactly the k lowest-id closed segments |
| Eviction.FillIsShare | daemon/crates/athar-daemon/src/eviction.rs:110-119 | The fill is the one number that is the directory's share of the quota in per cent, and 100 for a quota of zero |
| Eviction.RunOnce | daemon/crates/athar-daemon/src/eviction.rs:75-108 | A pass removes exactly the lowest-id closed segments it counts, at most the cap, never one more once below low water, and stops only when not started, below low water, out of closed segments, at the cap, or at an eviction that fails |
| AuditChain.CanonicalInjective | daemon/crates/athar-audit/src/lib.rs:175-188 | Records with fields in range and equal canonical bytes are equal |
| AuditChain.CanonicalLayout | daemon/crates/athar-audit/src/lib.rs:175-188 | Position by position: sequence number and two's-complement timestamp in eight bytes, most significant first, tenant and kind each behind its length in four, the commitment, one byte for the flag |
| AuditChain.CollisionIsInTheHash | daemon/crates/athar-audit/src/lib.rs:190-195 | Two chained records collide if and only if two different byte strings have one hash |
| AuditChain.VerifyChain | daemon/crates/athar-audit/src/lib.rs:278-303 | Accepts exactly the linked, consecutively numbered, correctly hashed runs, else reports the least failing index, sequence before link before hash |
| AuditChain.VerdictUnique | daemon/crates/athar-audit/src/lib.rs:278-303 | That description admits one verdict |
| AuditChain.VerifySegment | daemon/crates/athar-audit/src/lib.rs:261-276 | Empty, broken, badly signed or valid, in that order, for a segment that anchors itself |
| AuditChain.TipCommits | daemon/crates/athar-audit/src/lib.rs:278-303 | Of two accepted runs with one tip, one is a suffix of the other, and they and their anchors are equal if they start at one number, or two of their records collide |
| AuditChain.TipCommitsOrHashBroken | daemon/crates/athar-audit/src/lib.rs:175-195 | With the real canonical bytes: one run is a suffix of the other, and they and their anchors are equal if they start at one number, or two different preimages among theirs have one hash |
| AuditChain.BreakLocalised | daemon/crates/athar-audit/src/lib.rs:261-303 | Changing one record of an accepted segment is reported there or right behind, or as a bad signature, short of a collision or a second message valid under the signature |
| AuditChain.RedactionBreaksExactly | daemon/crates/athar-audit/src/lib.rs:313-329 | Redacting an unredacted record of an accepted segment is reported as a hash mismatch at exactly its index, short of a collision; redacting again changes nothing |
| AuditChain.ExtendHolds | daemon/crates/athar-audit/src/lib.rs:223-235 | Appending keeps a run chained from its anchor with consecutive numbers |
| AuditChain.SignedSegmentAccepted | daemon/crates/athar-audit/src/lib.rs:236-247 | Every non-empty segment the writer signs is accepted by the verifier |
| AuditChain.ChainWriter.Append | daemon/crates/athar-audit/src/lib.rs:223-235 | The run grows by the linked, numbered, hashed record |
| AuditChain.ChainWriter.CloseSegment | daemon/crates/athar-audit/src/lib.rs:236-247 | Hands out the signed run and starts a new one at its tip |
| AuditPersistence.SegmentStore.Write | daemon/crates/athar-audit/src/persistence.rs:48-60 | The file set gains the whole segment, or nothing if the write fails or the process dies before the rename |
| AuditPersistence.SegmentStore.ListIds | daemon/crates/athar-audit/src/persistence.rs:69-85 | Lists exactly the stored ids in increasing order |
| AuditPersistence.SegmentStore.VerifyAll | daemon/crates/athar-audit/src/persistence.rs:87-110 | Accepts if and only if every segment verifies and continues the one before, with exact counts, else reports the first unsound segment's error |
| AuditPersistence.EndsMayBeCut | daemon/crates/athar-audit/src/persistence.rs:90-105 | Dropping the oldest or newest segment of a sound store leaves a sound store |
| AuditPersistence.MiddleCutNoticed | daemon/crates/athar-audit/src/persistence.rs:90-105 | Dropping a segment between two others goes unnoticed if and only if it had left the tip as it found it |
| AuditLosses.EmptyStoreIsLoose | daemon/crates/athar-audit/src/writer.rs:46-75 | The invariants hold of an empty store, so of every run from one |
| AuditWriter.ResumePoint | daemon/crates/athar-audit/src/writer.rs:46-75 | Reopening resumes at the tip and the number the disk ends in |
| AuditWriter.NumberedFromZero | daemon/crates/athar-audit/src/writer.rs:110-126 | The persisted records are one chain from genesis, numbered 0 to n-1 across segments |
| AuditWriter.ObservedIsLogged | daemon/crates/athar-audit/src/writer.rs:89-108 | An observation that the process survives without losing a segment puts exactly one record behind the log: linked to the last record or to 32 zero bytes, numbered by the log's length, unredacted, with the given kind, time, tenant and the payload's commitment; the segment is closed exactly when full |
| AuditWriter.OpeningSetsLimit | daemon/crates/athar-audit/src/writer.rs:64-80 | A reopened writer has nothing pending and closes segments at the given limit, at least 1, or else at 1000 records |
| AuditLosses.RunVerifiesIff | daemon/crates/athar-audit/src/writer.rs:46-132 | Over every run, with writes that fail and restarts, the store verifies at the end if and only if it did at the start and every segment was put on disk by a writer that stood at the newest stored tip, or into an empty store |
| AuditLosses.EveryRunVerifiesIff | daemon/crates/athar-audit/src/persistence.rs:87-110 | Over every run from an unbroken chain, the end is one unbroken chain from genesis, numbered from 0, that verifies with exact segment and record counts, if and only if every segment was put on disk right behind the newest |
| AuditLosses.NoneLostNoHole | daemon/crates/athar-audit/src/writer.rs:46-132 | Runs that survive no failed write, crashes included, meet that condition |
| AuditLosses.AnyStepLosesAtMost | daemon/crates/athar-audit/src/writer.rs:46-132 | Every call, whatever becomes of its write, loses only newest records, at most one segment's worth, and none unless the process ends or a failed write is survived |
| AuditLosses.LostSegmentBreaksIff | daemon/crates/athar-audit/src/writer.rs:110-126 | Once a segment is lost and the process lives until it puts the next one on disk, the store verifies then if and only if it did before, and nothing was stored or the lost segment ended in the newest stored tip |
| AuditLosses.LossIsRejected | daemon/crates/athar-audit/src/writer.rs:110-126 | A run from the empty store, with one lost segment, that ends in a store that does not verify |
| AuditLosses.EarlyLossesUnnoticed | daemon/crates/athar-audit/src/persistence.rs:90-105 | A run that loses its first two segments and ends in a store that verifies |
| AuditLosses.RestartLinks | daemon/crates/athar-audit/src/writer.rs:46-75 | After any losses, a restart stands at the newest stored tip and right behind its id |
| AuditWriter.AuditChainWriter.Open | daemon/crates/athar-audit/src/writer.rs:46-75 | Opening yields the specification's writer from the stored segments |
| AuditWriter.AuditChainWriter.Observe | daemon/crates/athar-audit/src/writer.rs:89-108 | Observing, with its automatic rotation, is the specification step, for every fate of the write |
| AuditWriter.AuditChainWriter.CloseSegment | daemon/crates/athar-audit/src/writer.rs:110-127 | Closing is the specification step, for every fate of the write |
| AuditWriter.AuditChainWriter.Flush | daemon/crates/athar-audit/src/writer.rs:129-132 | Flushing is closing |
| LifecycleStores.UpsertKeepsIndexes | daemon/crates/athar-lifecycle/src/store.rs:63-75 | An upsert that respects other lifecycles' keys keeps every index answering as a scan would |
| LifecycleStores.UpsertKeepsRelation | daemon/crates/athar-lifecycle/src/sqlite_store.rs:177-239 | Replace-on-conflict then displaces no other lifecycle, and the table and the maps stay alike |
| LifecycleStores.KeysUnique | daemon/crates/athar-lifecycle/src/sqlite_store.rs:34-60 | No two lifecycles share a resource id or a business key, whatever their tenants |
| LifecycleStores.QueriesAgree | daemon/crates/athar-lifecycle/src/sqlite_store.rs:126-175 | Every query has one answer, both stores give it, and index hits resolve |
| LifecycleStoreObjects.InMemoryStore.Upsert | daemon/crates/athar-lifecycle/src/store.rs:63-75 | The four maps after the upsert are those of the specification |
| LifecycleStoreObjects.SqliteLifecycleStore.Upsert | daemon/crates/athar-lifecycle/src/sqlite_store.rs:177-239 | The two tables after the transaction are those of the specification |
| LifecycleEngine.CorrelationIsTopRung | daemon/crates/athar-lifecycle/src/engine.rs:124-175 | Correlation answers with the one lifecycle on the highest rung that any lifecycle is on, by a scan over all of them, and with none exactly when none is on any |
| LifecycleEngine.FoundsIff | daemon/crates/athar-lifecycle/src/engine.rs:124-175 | A lifecycle is founded exactly by a payment event that names a resource or a business id and matches none on any rung |
| LifecycleEngine.IndexesKeptIff | daemon/crates/athar-lifecycle/src/engine.rs:39-103 | Apply keeps every index exact if and only if a founding event and its new id are unused, and an event that matches an open lifecycle is unbound or bound to it |
| LifecycleEngine.ApplyKeepsIndexes | daemon/crates/athar-lifecycle/src/engine.rs:39-103 | With an admissible event, repeated or not, apply keeps every index exact and the separate binding adds nothing |
| LifecycleEngine.RedeliveryMayBreak | daemon/crates/athar-lifecycle/src/engine.rs:64-66 | From an empty store, three admissible events after which one of them, delivered again, breaks the index |
| LifecycleEngine.ApplyAgrees | daemon/crates/athar-lifecycle/src/engine.rs:39-103 | With an admissible event the engine decides alike on either store, displaces no other lifecycle and leaves the stores alike |
| LifecycleEngine.ApplyGrowsOneList | daemon/crates/athar-lifecycle/src/engine.rs:46-101 | Each apply, repeated events included, founds one lifecycle with the event, or grows one list of one lifecycle by it (late with its class, or with the state machine's move), or changes nothing |
| LifecycleEngine.OutcomeDescribes | daemon/crates/athar-lifecycle/src/engine.rs:46-101 | The answer tells the truth about the store afterwards: which lifecycle, on its highest rung, with the state and closure it now has, or the late entry it now ends in; unbound means that nothing changed and none was on any rung |
| LifecycleEngine.ApplyDropsIff | daemon/crates/athar-lifecycle/src/engine.rs:46-101 | For every event, an apply drops an event from a lifecycle's list if and only if it founds over that lifecycle and the dropped event is another one |
| LifecycleEngine.SecondFoundingDrops | daemon/crates/athar-lifecycle/src/engine.rs:77-80 | From an empty store, three events after which one is dropped that way |
| LifecycleEngine.RepeatedIdAppendsAgain | daemon/crates/athar-lifecycle/src/engine.rs:64-66 | A repeated event id on its own open lifecycle is appended again and keeps every index exact |
| StalenessScanner.SweepMeaning | daemon/crates/athar-lifecycle/src/scanner.rs:17-38 | In whatever order open lifecycles are listed, a sweep times out all stale ones at once and changes nothing else |
| StalenessScanner.SweepAgrees | daemon/crates/athar-lifecycle/src/scanner.rs:17-38 | Both stores list the same open lifecycles and sweep to alike stores, each in its own order |
| StalenessScanner.RacingSweepLosesIff | daemon/crates/athar-lifecycle/src/scanner.rs:19-27 | With one apply between a sweep's listing and its write-back, an event is lost if and only if the snapshot was stale and the event was new to that lifecycle; a lifecycle the apply closed keeps its closure if and only if the snapshot was not stale |
| StalenessScanner.RaceIsReachable | daemon/crates/athar-lifecycle/src/scanner.rs:19-27 | The losing case is reached from an empty store by one apply |
| LifecycleObjects.LifecycleEngineObject.Correlate | daemon/crates/athar-lifecycle/src/engine.rs:124-175 | The ladder of lookups computes the specified correlation on either store |
| LifecycleObjects.LifecycleEngineObject.Apply | daemon/crates/athar-lifecycle/src/engine.rs:39-103 | Apply's new store and outcome are those of the specification on either store |
| LifecycleObjects.Sweep | daemon/crates/athar-lifecycle/src/scanner.rs:17-38 | The sweep's loop computes the specified store and reports each timed-out lifecycle with both states |
| LifecycleObjects.ResultsReport | daemon/crates/athar-lifecycle/src/scanner.rs:19-36 | A sweep reports exactly the open lifecycles it times out, each with its state before and after |
| LifecycleRuns.EmptyWorldHolds | daemon/crates/athar-lifecycle/src/store.rs:42-44 | The invariant holds of two empty stores, so of every run from them |
| LifecycleRuns.StoresStayAlike | daemon/crates/athar-lifecycle/src/sqlite_store.rs:177-239 | After every run of applies and sweeps the indexes are exact, keys are unique and the stores are alike |
| LifecycleRuns.NextEventKeepsIndexesIff | daemon/crates/athar-lifecycle/src/engine.rs:39-103 | After every run, the next event keeps the indexes exact if and only if it is admissible then |
| LifecycleRuns.StoresAnswerAlike | daemon/crates/athar-lifecycle/src/store.rs:46-95 | After every run both stores answer every query alike, the open ones compared as a set |
| LifecycleRuns.StateIsFoldOfEvents | daemon/crates/athar-lifecycle/src/engine.rs:46-101 | After every run each lifecycle's state and closure are the fold of the state machine over its own events and at most one timeout; the timeout table's fall-through arm is never used |
| LifecycleRuns.NoneStaysOpenTooLong | daemon/crates/athar-lifecycle/src/scanner.rs:17-38 | With sweeps at most I apart, none stays open an hour and I past the last event it was given |
| LifecycleRuns.NoneClosedTooEarly | daemon/crates/athar-lifecycle/src/scanner.rs:19-30 | None is closed with uncertainty less than an hour after any event it was given |
| LifecycleRuns.NextSweepClosesExactly | daemon/crates/athar-lifecycle/src/scanner.rs:17-46 | After every run, a sweep closes an open lifecycle exactly if the last event it was given is an hour or more back, as abandoned if it had only started and as timed out otherwise, and changes no other |
| LifecycleRuns.TimesAreOwnEvents | daemon/crates/athar-lifecycle/src/engine.rs:64-101 | After every run, a lifecycle's keys, rungs and times are those of the events it was given: started at the first, last touched at the last |
| LifecycleRuns.ClosedStaysClosed | daemon/crates/athar-lifecycle/src/engine.rs:46-62 | Over every run a closed lifecycle changes only by gaining late events |
| LifecycleRuns.LateClassReplays | daemon/crates/athar-lifecycle/src/engine.rs:197-208 | After every run, replaying a closed lifecycle's own events with a late one behind them ends in another terminal state if and only if it is recorded as a conflict, short of a duplicate, and mere information changes nothing in the replay |
| ApplyInterleaving.LockedSectionIsOneApply | daemon/crates/athar-lifecycle/src/engine.rs:39-103 | Whatever the schedule does between a task's acquiring and releasing the lock, it is one whole apply on the store it was acquired over, and no other task moves |
| ApplyInterleaving.InterleavingsAreSequential | daemon/crates/athar-lifecycle/src/engine.rs:39-103 | Every interleaving that lets all tasks finish ends in the store, and gives the answers, of some sequential order of the applies |
| ApplyInterleaving.EveryScheduleCanFinish | daemon/crates/athar-lifecycle/src/engine.rs:39-103 | Every schedule extends to one in which all tasks finish |
| ApplyInterleaving.SequentialLosesNoEvent | daemon/crates/athar-lifecycle/src/engine.rs:64-101 | One after the other, with events admissible in turn, the event of every apply that answered created or updated is in that lifecycle's list at the end |
| ApplyInterleaving.NoEventLost | daemon/crates/athar-lifecycle/src/engine.rs:64-101 | In every interleaving that finishes, so is the event of every task, and the indexes are exact |
| SweepInterleaving.EventMissingIff | daemon/crates/athar-lifecycle/src/scanner.rs:17-38 | In every interleaving of applies and a sweeping scanner, an event a task has written is missing at the end if and only if the sweep under way at that moment later writes back a stale snapshot of the lifecycle, and no task that had loaded it by then writes it after that |
| SweepInterleaving.LossIsReached | daemon/crates/athar-lifecycle/src/scanner.rs:17-38 | From an empty store, a schedule of two applies and one sweep that meets that condition |
| SweepInterleaving.ReopenedIff | daemon/crates/athar-lifecycle/src/engine.rs:46-101 | In every interleaving, the next step reopens a closed lifecycle if and only if it is the write of a task that loaded the lifecycle open, with an event that leaves it open, before the sweep wrote back a stale snapshot of it |
| SweepInterleaving.ReopeningIsReached | daemon/crates/athar-lifecycle/src/scanner.rs:17-38 | From an empty store, a schedule that does |
| Recency.ByRecencyOrdered | daemon/crates/athar-detection/src/trackers.rs:92-100 | The recency list is ordered by each subject's last observation |
| Recency.LruStepTracks | daemon/crates/athar-detection/src/trackers.rs:63-104 | Evicting one subject at a time keeps exactly the most recently observed ones |
| Recency.AdmissionMeaning | daemon/crates/athar-detection/src/trackers.rs:63-80 | A tracked subject was admitted by an observation that found it untracked, and has been tracked ever since |
| VelocityTracking.TracksMostRecent | daemon/crates/athar-detection/src/trackers.rs:63-104 | For every history and clock, the tracked subjects are the max(1, max_subjects) most recently observed, in order and without duplicates, and the map's keys are the same |
| VelocityTracking.CountIsExact | daemon/crates/athar-detection/src/trackers.rs:63-104 | With nondecreasing clocks the window's length is the number of that subject's observations in the closed window since admission |
| VelocityTracking.PruningExactIff | daemon/crates/athar-detection/src/trackers.rs:84-90 | Pruning leaves exactly the fresh samples if and only if no stale one stands behind a fresh one |
| VelocityTracking.StepExactIff | daemon/crates/athar-detection/src/trackers.rs:82-90 | For any two cutoffs, a window exact at the first is exact at the second if and only if no stale sample stands behind a fresh one and no sample fresh now was pruned before |
| VelocityTracking.ExactThroughoutIff | daemon/crates/athar-detection/src/trackers.rs:63-104 | For every history and clock, a subject's window is exact after every observation if and only if that condition held before each of its own |
| VelocityTracking.MonotoneFits | daemon/crates/athar-detection/src/trackers.rs:84-90 | A clock that never went back meets that condition |
| VelocityTracking.CountIsOffBy | daemon/crates/athar-detection/src/trackers.rs:63-104 | After an exact window the count is off by the stale samples kept less the fresh ones pruned before |
| VelocityTracking.BackwardClockOvercounts | daemon/crates/athar-detection/src/trackers.rs:63-104 | A run with times 100, 50, 100 and window 5 counts three where two are in the window |
| VelocityTracking.BackwardClockUndercounts | daemon/crates/athar-detection/src/trackers.rs:63-104 | A run with times 100, 110, 200, 120 and window 50 counts two where four are no older than the window |
| VelocityTracking.VelocityTracker.Observe | daemon/crates/athar-detection/src/trackers.rs:63-104 | The object's new state, and its signal, are those of the history: the exact count if above the threshold |
| TargetTracking.EntryCounts | daemon/crates/athar-detection/src/trackers.rs:180-220 | Whatever was pruned and evicted, an entry's size is the number of distinct fresh targets up to the cap |
| TargetTracking.TracksMostRecent | daemon/crates/athar-detection/src/trackers.rs:167-220 | The tracked subjects are the most recently observed ones, whatever the clock does |
| TargetTracking.CountIsExact | daemon/crates/athar-detection/src/trackers.rs:167-220 | With nondecreasing clocks the count compared with the threshold is min(D, max(1, cap)) for the D distinct targets in the closed window since admission |
| TargetTracking.CountForAnyClock | daemon/crates/athar-detection/src/trackers.rs:167-220 | For every history and clock the count is the number of distinct targets in the window less the missing ones, up to the cap: those no longer held at a time in the window |
| TargetTracking.CountExactIff | daemon/crates/athar-detection/src/trackers.rs:167-220 | For every history and clock the count is min(D, max(1, cap)) if and only if none is missing, or the entry is full all the same |
| TargetTracking.BackwardClockMisses | daemon/crates/athar-detection/src/trackers.rs:180-190 | A run with times 100, 200, 120 and window 50 misses its first target |
| TargetTracking.FindOldest | daemon/crates/athar-detection/src/trackers.rs:191-208 | Finds the earliest-seen target, ties by key order |
| TargetTracking.TargetTracker.Observe | daemon/crates/athar-detection/src/trackers.rs:167-220 | The object's new state, and its signal, are those of the history: min(D, max(1, cap)) if above the threshold |
| Governor.IntrinsicMeaning | daemon/crates/athar-governor/src/lib.rs:260-277 | Which inputs demand which level, for thresholds in any order |
| Governor.TrippedIsSafeMode | daemon/crates/athar-governor/src/lib.rs:239-250 | For every history: while the dead-man's switch is tripped, the level is L4 |
| Governor.UntrippedIsDemand | daemon/crates/athar-governor/src/lib.rs:228-258 | For every history: while it is not tripped, the level is what the latest host metrics and budget report demand, or above that and set less than a window ago |
| Governor.BreachSinceExact | daemon/crates/athar-governor/src/lib.rs:279-292 | `breach_since` is the timestamp of the first report of the unbroken run of over-budget reports, or none if the latest is within budget |
| Governor.DeadmanExact | daemon/crates/athar-governor/src/lib.rs:279-312 | In terms of the calls alone: the switch is tripped exactly when at some call the over-budget run or the heartbeat gap had reached its timeout and no later call gave a new cause or let it recover, and shows that call's cause |
| Governor.AntiFlapping | daemon/crates/athar-governor/src/lib.rs:314-325 | A run of duration T changes the level at most 5 * floor(T / W) + 4 times |
| Governor.PublishedLevelLasts | daemon/crates/athar-governor/src/lib.rs:314-325 | A level once set is not left downwards for a full window; L4 then stays |
| Governor.GovernorObject.OnHost | daemon/crates/athar-governor/src/lib.rs:201-205 | A host report is one step of the specification |
| Governor.GovernorObject.OnBudget | daemon/crates/athar-governor/src/lib.rs:207-211 | A budget report is one step of the specification |
| Governor.GovernorObject.OnHeartbeat | daemon/crates/athar-governor/src/lib.rs:213-221 | A heartbeat is one step of the specification |
| Governor.GovernorObject.OnTick | daemon/crates/athar-governor/src/lib.rs:223-226 | A tick is one step of the specification |
| Governor.GovernorObject.Recompute | daemon/crates/athar-governor/src/lib.rs:228-258 | The object's new state is that of the specification step |
| Governor.GovernorObject.EvaluateDeadman | daemon/crates/athar-governor/src/lib.rs:279-312 | The early returns and the update of the breach start compute the specified signal |
| Calendar.CivilIsCalendar | daemon/crates/athar-daemon/src/ingest.rs:660-677 | Day 0 is 1970-01-01 and each next day is the calendar's successor, with the leap rule and month lengths of RFC 3339, for every day |
| Calendar.UnixToCivilExact | daemon/crates/athar-daemon/src/ingest.rs:660-677 | For every second count the fields are the date of its day and the time within it, the year exactly when it fits 32 bits |
| Calendar.LaterDayLaterDate | daemon/crates/athar-daemon/src/ingest.rs:660-677 | A later day has a later date |
| Calendar.TextOrderIsTimeOrder | daemon/crates/athar-daemon/src/ingest.rs:650-658 | For years up to 9999 the text orders lexicographically if and only if the times do |
| Calendar.TextReadsBack | daemon/crates/athar-daemon/src/ingest.rs:650-658 | For years up to 9999 the text has 27 characters and reads back, position by position, as the calendar date of the day and the time within it to the microsecond |
| Calendar.PaddedReadsBack | daemon/crates/athar-daemon/src/ingest.rs:657 | A padded number reads back as itself: at its width if it fits, else without leading zeros |
| IngestInterleaving.StepKeeps | daemon/crates/athar-daemon/src/ingest.rs:70-103 | Every step of every task conserves frames and bytes and keeps evidence before commitment |
| IngestInterleaving.DropsConserved | daemon/crates/athar-daemon/src/ingest.rs:70-103 | In every interleaving frames and bytes are each conserved between counter, takers and summaries, up to whole wraps of the 64-bit counters |
| IngestInterleaving.LastTakeReportsAll | daemon/crates/athar-daemon/src/ingest.rs:94-102 | A last take reports every frame, and every byte if and only if it finds a frame or no byte |
| IngestInterleaving.BytesMayBeStranded | daemon/crates/athar-daemon/src/ingest.rs:71-102 | The other case is reached: a drop split by an emitter leaves its bytes unreported |
| IngestInterleaving.EveryCommitmentHasEvidence | daemon/crates/athar-daemon/src/ingest.rs:483-493 | In every interleaving the multiset of event commitments is contained in that of the events appended as evidence |
| IngestAccounts.EveryEntryAccountedFor | daemon/crates/athar-daemon/src/ingest.rs:483-493 | In every interleaving and for every entry: each ingest, and each summary taken, is in evidence, about to be appended, or its append failed; each event in evidence, and each summary past its append, is in the audit chain, about to be committed, or its audit call failed |
| IngestAccounts.BothLogsHoldAll | daemon/crates/athar-daemon/src/ingest.rs:341-375 | When every call succeeds and all tasks have finished, both logs hold exactly the ingested events and the summaries taken, each as often as it occurred |
| IngestAccounts.DropsAreAdded | daemon/crates/athar-daemon/src/ingest.rs:70-81 | In every interleaving, what was added is one frame for each drop that has begun and the size of each that has finished |
| IngestAccounts.TakeReportsWindow | daemon/crates/athar-daemon/src/ingest.rs:70-103 | A take behind any number of drops reports how many there were, their total size, and the time of the first |
| ShimBuffering.LongestFitMeaning | shim/src/Shim/Buffer.php:29-45 | The longest fit is a suffix that fits or is empty, and no longer suffix fits |
| ShimBuffering.LongestFitUnique | shim/src/Shim/Buffer.php:29-45 | Those properties leave one answer |
| ShimBuffering.FitThenPush | shim/src/Shim/Buffer.php:29-45 | Holding the longest fit and pushing is as good as holding everything and pushing |
| ShimBuffering.OversizeEmpties | shim/src/Shim/Buffer.php:33-38 | The buffer is empty right after a push exactly when that frame alone does not fit |
| ShimBuffering.Buffer.Push | shim/src/Shim/Buffer.php:29-45 | The buffer stays the longest fit of all pushes since the last drain; each frame lost is counted, so pushed = drained + dropped + held |
| ShimBuffering.Buffer.Drain | shim/src/Shim/Buffer.php:48-54 | Hands out the longest fit of the pushes since the last drain, and starts anew |
| ShimBuffering.Buffer.Count | shim/src/Shim/Buffer.php:56 | The number held, within the frame bound |
| ShimBuffering.Buffer.HeldBytes | shim/src/Shim/Buffer.php:57 | The bytes held, within the byte bound |
| ShimBuffering.Buffer.ResetDroppedCounter | shim/src/Shim/Buffer.php:59-64 | Reports the drops so far and keeps them accounted for |

## Left out

- I/O errors half way through a write: the evidence log does not repair a torn frame while it runs, so such an error is treated as a crash.
- Eviction.RunOnce: the lock is released between evictions, and appends that come in between are not modelled; an eviction that fails is.
- SweepInterleaving.EventMissingIff: one scanner, on the in-memory store; two sweeps never overlap.
- File names: files are keyed by id and state, so the suffixes that renaming produces are not part of this model.
- Overflow of 64-bit ids and sequence numbers, and of the byte totals: unbounded here.
- Percentages and fill ratios are reals; rounding of 32-bit floats is not modelled.
- Quota.headroom and fill_ratio beyond the fill test: display values.
- BLAKE3, Ed25519, serde and SQLite internals: parameters, identity and a table with replace-on-conflict; the order of `all_open` is left open, and columns no query reads are not kept.
- At-capacity flags of the trackers only suppress repeated log lines; they are updated by the objects but nothing is claimed of them.
- The watch channels of the governor: publishing follows every change of the fields that are modelled.
- PolicyEngine, PressureLevel::allows, Event::validate: finite tables.
- SignalEngine, decision records and policy reload: thin composition over the trackers and files.
- Sockets, timers, metric sampling, configuration and the command line; signer files and seeds.
- The shim's spool, transport, adapters, classification and identifiers.
