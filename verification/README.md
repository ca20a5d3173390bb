# vBilling, modelled and verified

vBilling is a metering pipe. It measures what tenant clusters use in closed time windows, commits each window
atomically to a hash-chained ledger, delivers the ledger to billing backends at least once under IDs that make the
effect exactly once, and keeps one contract per tenant in force at Metronome. These Dafny files model the five pieces
that carry hard state or arithmetic and prove what they are for:

- **The ledger** (`Ledger`, `Segments`, `Spool*`). Segment files of bytes, a manifest, cursors and remembered IDs on
  an abstract disk; recovery, append, rotation, read, scan, verify and compaction. `SpoolModel` gives each operation as
  a function of memory and disk, `SpoolInvariant` relates both to a history of committed records, and the class `Spool`
  runs the loops of the program and is proved equal to those functions. The main results are `CrashAtomic`,
  `OpenRecovers`, `ReadIsNaive`, `ScanIsFilter`, `TamperEvident`, `CompactExactly`, `CompactIsInvisible`,
  `CompactCrash`, `RunSafe`, `WindowsCommitOnce` and `IngestOnce`.
- **Delivery** (`Delivery`, `DeliveryRuns`, `DispatcherObject`). Bisection of rejected batches, and runs of the real
  ledger and a backend that answers anything, with appends, compactions, rewinds and crashes falling between the
  steps of the loop: `PoisonIsolated`, `DeliverFails`, `DeliverySafety`, `ExactlyOnce`.
- **Windows and gaps** (`Windows`, `Gaps`, `ControllerObject`, `CollectorRuns`). Which windows a collection meters,
  what survives of a tenant cluster's outage, and the controller's loops over the ledger: `RunTiles`, `GapRemembers`,
  `FillsAreExact`, `ForgottenWindow`, `LiveWindowRefilled`, `CollectDue`, `WindowsHeld`, `LedgerTiles`.
- **Contract handover** (`Contracts`, `Handover`, `HandoverRuns`, `HandoverAnswers`, `AdapterObject`). Contract keys
  printed and read back, and the protocol against a remote contract store with lost replies, refusals and other
  replicas: `KeyRoundTrip`, `HandsOver`, `KeepsItsCard`, `HandsOverExactly`, `EnsureAnswers`, `RunStaysDisjoint`,
  `InterruptedSpan`, `RunLeavesOthers`.
- **Metering** (`Metering`, `Identity`, `Confusion`, `Accumulation`, `AccumulatorObject`, `PodMetering`, `Deletions`,
  `GraveyardObject`). Overlap, downtime and rounding, the identity string behind event IDs, accumulation by identity,
  the loops over pods and windows, and how long deleted objects are kept: `TilingConserves`, `Canonical`,
  `ConfusedExactly`, `AccumulationConserves`, `MergeIsDirect`, `MeteringConserves`, `OutlivesWindows`.

Text is modelled as byte strings and instants as nanoseconds since the start of year 1, so that the zero time is 0.
JSON, SHA-256, the calendar and the RFC 3339 rendering of instants are parameters with the properties the program
relies on (`CodecExists` shows that they can be met); nothing is assumed about collisions, which appear as a case in the
statements. What the network, the clock and the disk do (answers, lost replies, failed writes, where a crash falls) is a
parameter of every operation, and results over runs hold for all of them. `ConcreteRuns` has
runs of the ledger and of delivery in which something fails.

## Findings

Places where the code does less than it sets out to do; each has a lemma that says exactly when.

- `CollectDue` can build an empty window list although a window is due: when MAX_BACKFILL is not positive, or when the
  watermark lies less than one interval before the latest boundary, as a change of interval leaves it.
  `fillTenantGaps` then indexes `windows[0]` (`Windows.EmptyWindowList`).
- A commit loop that fails part-way, or a process that ends there, skips `fillTenantGaps`. The windows just committed for
  a tenant whose API was down are then forgotten (`Gaps.PartialCommitForgets`), and filled later only if the tenant is
  down again while an older span is still open (`Gaps.ForgottenWindow`, `Gaps.FirstHourForgotten`).
- A fill can meter a window again that was committed normally, although `internal/controller/controller.go:364-365`
  rules that out: when the tenant is down before and after the window and the fill between them failed
  (`Gaps.LiveWindowRefilled`, `Gaps.LiveFilledAgain`). The ledger then holds its IDs twice, for windows do not enter the
  remembered IDs (`SpoolRuns.WindowNotRemembered`); a backend applies the copy it receives first.
- The gap store drops fractions of a second. With an interval such as 11.25s, which configuration accepts, a fill
  meters another window than the one that failed (`Gaps.StoreKeepsName`).
- A crash inside `Compact`, after files are removed and before the manifest is written, leaves the anchor of the older
  manifest. Open succeeds on it, and unless nothing is retained `Verify` then reports a broken chain; if nothing is
  retained, the next append names the old anchor instead of the last record. And a source whose last window only the
  removed records told of can commit it again, which happens when an earlier crash kept their segment out of the
  manifest (`SpoolCompactCrash.CompactCrash`, `ConcreteRuns.CrashedCompactFailsVerify`,
  `ConcreteRuns.WindowCommittedAgain`).
- An operator's rewind is undone when a batch is in hand that is then acknowledged, although the loop reads the cursor
  again in every round so that a rewind takes effect (`DeliveryRuns.RewindUndone`, `ConcreteRuns.RewindSlips`).
- `Cursor` ignores a failed write of a first cursor. After a restart the destination then starts at the new end of the
  log, and what was appended in between is never delivered to it (`DeliveryRuns.FirstCursorLost`,
  `ConcreteRuns.FirstCursorSlips`).
- A rate-card change that fails after creating its contract and is repeated on a later day leaves both contracts in
  force from the first day to the second, although the repeated call completes (`HandoverRuns.InterruptedSpan`,
  `HandoverRuns.RepeatedNextDay`).
- A rate-card change that fails after creating its contract and is then taken back leaves two contracts in force:
  `ensureContract` compares with the card remembered last and reports success without a call
  (`HandoverRuns.ChangeTakenBack`).
- Contract keys of v0.2.0 do not name one tenant (`Contracts.LegacyKeyAmbiguous`).
- A deletion noticed late is dated to the last collection that listed the object only while that listing is
  remembered; after an outage longer than the retention it is dated to when it is noticed, although
  `internal/metrics/graveyard.go:23-25` says never later (`Deletions.DeletionDated`).
- `Validate` accepts NUL bytes in every field but the metric and the dimension keys, and with them two different valid
  identities can have one ID (`Confusion.NulConfuses`); `Confusion.ConfusedExactly` says for which events. Every event with
  a dimension is one of them: its fields and first dimension can be read one place further on.

One comment differs without consequence: `usage.Window` says windows are aligned to the Unix epoch
(`internal/usage/usage.go:186-187`). Truncation counts from year 1, as the model does; for intervals that divide an
hour, the only ones configuration accepts, both give the same windows.

## Model

| member | source | states |
|---|---|---|
| `Ledger.StemParses` | internal/spool/spool.go:343-361 | The line of any record holds no newline and reads back as that record, its digest and its body, with the digest checked and without. |
| `Ledger.PeekSeqFinds` | internal/spool/spool.go:603-614 | Peeking at a written line gives exactly the number of its record, or nothing when the number does not fit 64 bits. |
| `Ledger.BatchChained` | internal/spool/spool.go:456-488 | The records one append writes are numbered on from the last one, each names the digest of the record before it, all carry one time, and they hold the payloads in order. |
| `Ledger.ChainedAppend` | internal/spool/spool.go:459-479 | A chain continued from its own head is one chain with the head of the continuation. |
| `CodecExists.CodecsExist` | internal/spool/spool.go:459-479 | What the ledger asks of encoding, hash and text search can be met: a concrete encoding of records does. |
| `CodecExists.RenderingsExist` | internal/usage/usage.go:106-107 | So can what the identity results ask of the rendering of instants, and no rendering is a metric code. |
| `Segments.ScanReaches` | internal/spool/spool.go:274-311 | Reading complete lines ends in the state that describes exactly those records: sizes, index, last commit, first time, window ends. |
| `Segments.ScanStops` | internal/spool/spool.go:282-288 | A torn last line ends the scan of the newest segment where the complete lines end, and is refused in a closed one. |
| `Segments.StateUncommitted` | internal/spool/spool.go:299-326 | Events written behind the last commit change nothing that survives truncation. |
| `Segments.ScanRecovers` | internal/spool/spool.go:252-341 | Committed records, then part of a batch, then part of a line: the scan gives the metadata, index and size of the committed records alone and cuts the file there. |
| `SpoolModel.ListingUnique` | internal/spool/spool.go:203-213 | The ascending listing of a directory is the only one with those names. |
| `SpoolModel.ListingMembers` | internal/spool/spool.go:203-213 | The listing holds exactly the names there are. |
| `SpoolInvariant.WatermarkIsMax` | internal/spool/spool.go:510-512 | A source has a watermark exactly once it committed a window, and it is the largest window end it ever committed. |
| `SpoolInvariant.RaiseCatchesUp` | internal/spool/spool.go:335-339 | Raising the stale watermarks of the manifest by the segments read back gives the watermarks of the whole log. |
| `SpoolRecovery.KnownSegmentTaken` | internal/spool/spool.go:194-225 | A segment the manifest lists is taken as listed under its own name, and no other is. |
| `SpoolRecovery.FileRecovered` | internal/spool/spool.go:215-231 | One segment file read back yields the metadata of its records and keeps exactly their lines. |
| `SpoolRecovery.RoundSucceeds` | internal/spool/spool.go:215-231 | Each round of recovery succeeds and extends the recovered part of the log by its segment, whether taken from the manifest or read. |
| `SpoolRecovery.TipIsLast` | internal/spool/spool.go:233-246 | Number and head picked from the newest non-empty segment (or from the name and the anchor) are those of the last record of the log, compacted ones included. |
| `SpoolRecovery.OpenRecovers` | internal/spool/spool.go:145-248 | Whatever part of an unfinished batch is on disk, Open succeeds, and memory and disk describe exactly the committed log again. |
| `SpoolRecovery.OpenEmpty` | internal/spool/spool.go:145-171 | A new directory opens as an empty log. |
| `SpoolRecovery.OpensAs` | internal/spool/spool.go:145-248 | A directory that holds a committed history, clean or with part of an unfinished batch behind it, opens as that history. |
| `SpoolSteps.RotateKeeps` | internal/spool/spool.go:518-538 | Rotation changes no record, keeps the invariant, and leaves an active segment that can be written. |
| `SpoolSteps.RotatesWhenFull` | internal/spool/spool.go:518-526 | A segment is begun exactly when the active one has its maximum of records or its first record is as old as the maximum age; so no batch goes into a full one. |
| `SpoolSteps.RotateLists` | internal/spool/spool.go:527-546 | A rotation keeps every file as it is, adds an empty one for the next number, and leaves a manifest that lists every segment written so far as a scan would describe it, with watermarks and anchor. |
| `SpoolSteps.ExtendIsMeta` | internal/spool/spool.go:501-508 | The metadata kept up while appending (first and last time, digest, size, sparse index) is what a scan of the grown file gives. |
| `SpoolSteps.WriteBatchKeeps` | internal/spool/spool.go:480-512 | A successful write adds exactly its batch and keeps the invariant. |
| `SpoolSteps.AppendKeeps` | internal/spool/spool.go:449-516 | appendLocked keeps the invariant and adds exactly its batch to the log, or nothing when the write fails. |
| `SpoolCrash.PrefixIsTorn` | internal/spool/spool.go:282-288 | Every proper prefix of a batch in bytes is some whole lines and part of the next. |
| `SpoolCrash.BatchPrefixIsTorn` | internal/spool/spool.go:480-488 | A batch cut anywhere leaves only events and part of a line: its commit is its last line. |
| `SpoolCrash.ReopenClean` | internal/spool/spool.go:145-171 | A clean disk reopens as the state that wrote it, cursors included. |
| `SpoolCrash.ReopenTorn` | internal/spool/spool.go:312-341 | A disk with any proper prefix of a batch reopens as the state before that append. |
| `SpoolCrash.CrashAtomic` | internal/spool/spool.go:185-341 | Crash atomicity: after a crash at any byte of an append, before or inside its rotation too, Open gives the state after the append when every byte got out and the state before it otherwise, never half a batch, and the next append continues the same chain. |
| `SpoolReads.StartSkipsNothing` | internal/spool/spool.go:654-660 | Wherever the sparse index says to start, present, truncated or missing, no wanted record lies before it. |
| `SpoolReads.IndexHolds` | internal/spool/spool.go:466-479 | The sparse index has an entry for every 256th record of a segment, at its first byte. |
| `SpoolReads.StartsNear` | internal/spool/spool.go:654-660 | With its index a read begins at the last such record at or before the one wanted. |
| `SpoolReads.SegmentCollects` | internal/spool/spool.go:644-701 | Reading one segment through its index collects what is wanted of all its records, up to the limit. |
| `SpoolReads.SkippedAreOld` | internal/spool/spool.go:622-625 | The segments the binary search passes over hold nothing newer than the cursor. |
| `SpoolReads.NewerIsSuffix` | internal/spool/spool.go:617-635 | The records newer than a cursor are the log from that place on, without a gap. |
| `SpoolReads.ReadIsNaive` | internal/spool/spool.go:616-701 | Indexed read refines the naive one: in every state of the invariant Read(after, max) is exactly the first max retained records past `after`, in order. |
| `SpoolReads.PrefilterLosesNothing` | internal/spool/spool.go:678-680 | Dropping lines by their peeked window, undecoded, loses no event the scan wants. |
| `SpoolReads.SkippedHoldsNothing` | internal/spool/spool.go:715-717 | A segment last written more than an hour before the range holds no event overlapping it, when appends are prompt. |
| `SpoolReads.OverlapIsCommon` | internal/spool/spool.go:728 | An event overlaps a range exactly when they have an instant in common. |
| `SpoolReads.ScanIsFilter` | internal/spool/spool.go:703-743 | When append times never decrease and no event is appended more than an hour before its window ends, Scan visits each retained event overlapping [from, to) exactly once, in order. |
| `SpoolVerify.LinesPass` | internal/spool/spool.go:968-996 | Verification errors are never taken back; a file is walked without one exactly when its lines parse and its records continue the chain before it. |
| `SpoolVerify.VerifiesExactly` | internal/spool/spool.go:947-1002 | Whatever bytes the files hold: Verify passes exactly when every segment has its file, every complete line up to the committed end parses with its digest, and the records form one chain from the anchor; with errors, too, it counts every record it can read and ends at the digest of the last. |
| `SpoolVerify.TamperEvident` | internal/spool/spool.go:947-1002 | Any two ledgers, whatever bytes their files hold, that pass Verify with the same head and record count are equal record for record, or two of their bodies collide under the hash. |
| `SpoolVerify.AnchorDecides` | internal/spool/spool.go:947-1002 | On a ledger in order, with the anchor replaced by any other, Verify passes exactly when that is the digest of the last compacted record, or nothing is retained. |
| `SpoolVerify.ReachablePasses` | internal/spool/spool.go:947-1002 | Every ledger of the invariant passes Verify, with the head the next append chains on. |
| `SpoolCompact.AnchorIsHead` | internal/spool/spool.go:899-901 | The anchor Compact leaves is the digest of the last record it removed. |
| `SpoolCompact.CompactKeeps` | internal/spool/spool.go:872-913 | A completed Compact removes a prefix of closed segments and keeps the log, the watermarks, the cursors and the invariant, and leaves the digest of the last removed record as the anchor. |
| `SpoolCompact.CompactAnchors` | internal/spool/spool.go:899-910 | After a completed Compact the anchor is the prev of the first record still retained. |
| `SpoolCompact.RemovedWasRead` | internal/spool/spool.go:880-895 | Everything removed had been acknowledged by every listed consumer that has a cursor. |
| `SpoolCompact.LowestIsReadByAll` | internal/spool/spool.go:880-889 | A record is at or before the lowest cursor exactly when it is committed and every listed consumer that has a cursor has acknowledged it. |
| `SpoolCompact.CompactExactly` | internal/spool/spool.go:874-904 | Compact removes exactly the leading closed segments that are empty or whose last record is at least as old as the retention and acknowledged by all listed consumers; the first it leaves is younger or not acknowledged by all; and a retention that is not positive removes nothing. |
| `SpoolCompact.NothingYoungGoes` | internal/spool/spool.go:890-895 | When append times never decrease, every record removed is at least as old as the retention and acknowledged by all. |
| `SpoolCompact.CompactForgets` | internal/spool/spool.go:915-932 | Compact forgets exactly the IDs remembered before the dedupe window; if there are any their file is rewritten with those left, and otherwise it is not touched. |
| `SpoolCompact.CompactIsInvisible` | internal/spool/spool.go:872-913 | No listed consumer's Read(cursor, max) changes through a completed Compact, for any max. |
| `SpoolCompactCrash.AnchorBehind` | internal/spool/spool.go:890-910 | With some of the removed files gone and the manifest not written, the anchor on disk is still right exactly when none is gone or two different records have one digest. |
| `SpoolCompactCrash.OpenBehind` | internal/spool/spool.go:185-248 | Open succeeds on the disk a crash inside Compact leaves, and gives the records left with the anchor of before. |
| `SpoolCompactCrash.WatermarkBehind` | internal/spool/spool.go:185-231 | After a crash inside Compact a watermark is never ahead of the last window committed, and equal to it exactly when a retained record or the manifest on disk tells of that window. |
| `SpoolCompactCrash.CompactCrash` | internal/spool/spool.go:872-913 | After a crash anywhere inside Compact, k files gone and the manifest unwritten, Open succeeds; Verify then passes exactly when k is 0, or nothing is retained, or two different records have one digest; the next append numbers on and names the head of the log, but the old anchor when nothing is retained; and exactly the sources whose last window neither a retained record nor the manifest tells of can commit it again. |
| `ConcreteRuns.CrashedCompactFailsVerify` | internal/spool/spool.go:896-910 | A concrete run from an empty directory whose ledger Verify rejects after a crash inside Compact. |
| `ConcreteRuns.WindowCommittedAgain` | internal/spool/spool.go:518-538 | A concrete run from an empty directory, with a crash inside a rotation and one inside Compact, after which AppendWindow accepts a window it has committed before. |
| `SpoolRuns.SiftKeepsNew` | internal/spool/spool.go:417-447 | An ingest keeps events that are new and pairwise different by ID, and drops nothing else that is new. |
| `SpoolRuns.IngestOnce` | internal/spool/spool.go:417-447 | What an ingest accepted is not accepted again within the dedupe window, whatever comes in between: appends, other ingests, compactions, crashes inside appends, restarts. A second ingest of it changes nothing. |
| `SpoolRuns.StepKnows` | internal/spool/spool.go:782-870 | Within its window no operation, crash or restart forgets a remembered ID, in memory or on disk. |
| `SpoolRuns.RestartForgets` | internal/spool/spool.go:832-870 | A restart remembers an ID exactly when its window, counted from the whole second it was recorded in, has not passed. |
| `SpoolRuns.WindowNotRemembered` | internal/spool/spool.go:401-447 | Windows do not enter the remembered IDs: an ingest records an event although a window has committed its ID. |
| `SpoolRuns.StepKeeps` | internal/spool/spool.go:401-932 | Every operation, crash and restart keeps the invariant and only ever adds records behind the log. |
| `SpoolRuns.RunKeeps` | internal/spool/spool.go:401-932 | Every run from an empty directory keeps the invariant, and its log is the records its steps added. |
| `SpoolRuns.RunSafe` | internal/spool/spool.go:145-1002 | In every reachable state the log is one chain, Verify passes with its head, and the next read of any consumer is the naive one. |
| `SpoolRuns.WindowsCommitOnce` | internal/spool/spool.go:401-413 | Over any run with crashes, rotations and compactions each source's windows strictly advance, and AppendWindow accepts exactly the windows after all those ever committed. |
| `SpoolRuns.StepKeepsCursor` | internal/spool/spool.go:745-815 | No append, compaction or other destination's move touches a destination's cursor; a restart or a crash brings back the cursor on disk, which is another only after a cursor write that failed. |
| `SpoolRuns.CursorMoves` | internal/spool/spool.go:761-780 | A cursor set lands where it was told, at most at the committed end; an acknowledgement moves it forward only; both leave all other cursors alone. |
| `SpoolRuns.RunBoundsCursors` | internal/spool/spool.go:745-815 | Over every run in which only committed records are acknowledged no destination has a cursor past the end of the log. |
| `SpoolRuns.StepStaysBehind` | internal/spool/spool.go:880-895 | Compaction never removes a record a listed destination has not acknowledged. |
| `SpoolObject.Disk.ReadDir` | internal/spool/spool.go:203-213 | The segment names on disk in ascending order, each once. |
| `SpoolObject.ScanLines` | internal/spool/spool.go:274-311 | The byte-reading loop of scanSegment gives what the scan function gives for the whole file. |
| `SpoolObject.Seek` | internal/spool/spool.go:654-660 | The loop over the sparse index stops at the offset of the last entry not past `from`. |
| `SpoolObject.StreamLines` | internal/spool/spool.go:664-700 | The line loop of a segment read, with its skips, filter and limit, collects what the read function does. |
| `SpoolObject.CheckLines` | internal/spool/spool.go:968-996 | Verify's loop over one file ends in the state the walk function gives. |
| `SpoolObject.SearchSegments` | internal/spool/spool.go:622-623 | Halving finds the first segment that is empty or reaches past the cursor. |
| `SpoolObject.LastsRise` | internal/spool/spool.go:622-623 | In every state of the invariant the search predicate is monotonic over the segments. |
| `SpoolObject.Spool.Open` | internal/spool/spool.go:145-171 | Opens exactly when the directory can be recovered, with the recovered state; a directory that holds a history, a new one or part of an unfinished batch included, gives a valid spool with exactly that history. |
| `SpoolObject.Spool.Recover` | internal/spool/spool.go:185-248 | Segments, watermarks, anchor, number, head and truncated files as recovery defines them, or refusal. |
| `SpoolObject.Spool.ReadSegments` | internal/spool/spool.go:215-231 | The loop over the segment files leaves the segments, watermarks and truncated files of the recovery function. |
| `SpoolObject.Spool.SetTip` | internal/spool/spool.go:233-246 | Number and head of the newest non-empty segment. |
| `SpoolObject.Spool.Load` | internal/spool/spool.go:798-868 | Cursors clamped to the committed end, remembered IDs within the window, and an active segment to write. |
| `SpoolObject.Spool.WriteManifest` | internal/spool/spool.go:540-546 | The manifest lists the closed segments, the watermarks and the anchor, and nothing else changes. |
| `SpoolObject.Spool.MaybeRotate` | internal/spool/spool.go:518-538 | Starts the next segment exactly when the active one is full or old enough. |
| `SpoolObject.Spool.WriteBatch` | internal/spool/spool.go:480-512 | Memory and file after a batch: exactly its lines, its metadata, and the watermark of a window. |
| `SpoolObject.Spool.EncodeBatch` | internal/spool/spool.go:458-488 | The write loop yields the numbered, chained records, their bytes and their index entries. |
| `SpoolObject.Spool.AppendLocked` | internal/spool/spool.go:449-516 | Valid spool in, valid spool out; the log grows by exactly the batch, or not at all when the write fails. |
| `SpoolObject.Spool.AppendWindow` | internal/spool/spool.go:401-413 | Succeeds exactly when the spool is open, the window lies after the source's watermark and the write works; otherwise nothing is added. |
| `SpoolObject.Spool.AppendIngest` | internal/spool/spool.go:417-447 | Adds the events not seen before, reports the others, and remembers the added IDs in memory and on disk. |
| `SpoolObject.Spool.Sort` | internal/spool/spool.go:424-434 | Splits a batch into unseen events and duplicates, in order. |
| `SpoolObject.Spool.ReadSegmentOpts` | internal/spool/spool.go:644-701 | Reads one segment as the segment read function does. |
| `SpoolObject.Spool.Read` | internal/spool/spool.go:617-635 | The first max records of the log past `after` that are retained, in order and without a gap. |
| `SpoolObject.Spool.Scan` | internal/spool/spool.go:711-743 | What the scan function gives; with prompt appends, exactly the retained events overlapping the range. |
| `SpoolObject.Spool.Verify` | internal/spool/spool.go:948-1002 | The report of the walk over all files; on a valid spool it is clean, ends at the head and counts every retained record. |
| `SpoolObject.Spool.Cursor` | internal/spool/spool.go:748-758 | The stored cursor; a destination seen first starts at the committed end, in memory and, unless the write fails, on disk. |
| `SpoolObject.Spool.SetCursor` | internal/spool/spool.go:761-769 | Moves one cursor, at most to the committed end, in memory and on disk; a failed write is reported and leaves it moved in memory. |
| `SpoolObject.Spool.Ack` | internal/spool/spool.go:772-780 | Moves one cursor forward, never back, in memory and on disk; a failed write is reported and leaves it moved in memory. |
| `SpoolObject.Spool.LowestCursor` | internal/spool/spool.go:880-889 | The lowest cursor of the listed consumers, one without a cursor counting as caught up. |
| `SpoolObject.Spool.Compact` | internal/spool/spool.go:874-913 | Keeps the spool valid and its log unchanged, and removes exactly the leading closed segments older than the retention and acknowledged by all listed consumers. |
| `SpoolObject.Spool.RemoveSegments` | internal/spool/spool.go:890-904 | The loop removes the files of the leading closed segments that are empty, or old enough and acknowledged by all, stops at the first that is not, and moves the anchor past them. |
| `SpoolObject.Spool.PruneIDs` | internal/spool/spool.go:915-932 | Forgets exactly the remembered IDs older than the window, and rewrites their file only then. |
| `SpoolObject.Spool.Close` | internal/spool/spool.go:1103-1115 | Writes the manifest once and refuses later appends. |
| `Delivery.RejectionSplits` | internal/pipeline/dispatcher.go:277-292 | A partial rejection splits a batch: every event is either rejected or accepted, none twice. |
| `Delivery.DeliverSplits` | internal/pipeline/dispatcher.go:267-314 | Whatever the backend answers, an attempt only adds to what was sent and parked; a successful one accounts for every event of the batch exactly once, and the count it returns is that of the dead letters. |
| `Delivery.PoisonIsolated` | internal/pipeline/dispatcher.go:267-314 | When a batch is permanently rejected iff it holds a poison event, exactly the k poison events of n are dead-lettered, in order, all others accepted, with at most 1 + 2·k·⌈log2 n⌉ SendEvents calls. |
| `Delivery.TenantsFirst` | internal/pipeline/dispatcher.go:238-265 | Before a batch is sent every tenant in it exists at the backend as the registry knows it now, or an EnsureTenant call made for it in this attempt was refused for good. |
| `Delivery.TenantsAsked` | internal/pipeline/dispatcher.go:238-265 | Each tenant of a batch is asked for at most once, and only while the backend does not have it as the registry does; and every such tenant is asked for, unless an earlier one must be retried. |
| `Delivery.DeliverFails` | internal/pipeline/dispatcher.go:267-314 | An attempt fails exactly when, among the calls it made itself, a batch was answered with a retryable error, a tenant was neither taken nor refused for good, or a dead letter could not be written; so no rejection, of a whole batch or of part of one, holds a batch back. |
| `Delivery.PartialDelivers` | internal/pipeline/dispatcher.go:277-292 | A batch rejected in part is sent once and succeeds: with dead letters that can be written, the dead letters are exactly the rejected events, in order, and the rest is confirmed. |
| `DeliveryRuns.BatchIsStretch` | internal/pipeline/dispatcher.go:156-163 | A batch read at a cursor is the stretch of the log right behind it, or from the first record retained on. |
| `DeliveryRuns.AttemptKeeps` | internal/pipeline/dispatcher.go:194-206 | A failed delivery, or one whose acknowledgement was lost, unsettles nothing. |
| `DeliveryRuns.SuccessSettles` | internal/pipeline/dispatcher.go:176-217 | After a successful delivery every record of the batch is accepted, filtered out or dead-lettered. |
| `DeliveryRuns.FetchKeeps` | internal/pipeline/dispatcher.go:156-163 | A batch taken in hand leaves out no unsettled record. |
| `DeliveryRuns.TryKeeps` | internal/pipeline/dispatcher.go:176-217 | An attempt settles its whole batch or, failing, unsettles nothing, whatever the ledger did since the batch was read. |
| `DeliveryRuns.SettleKeeps` | internal/spool/spool.go:772-780 | The acknowledgement moves the cursor over settled records only, in memory alone when its write fails. |
| `DeliveryRuns.SystemKeeps` | internal/pipeline/dispatcher.go:135-236 | Every step, of the loop, the ledger or an operator who rewinds, keeps what the cursor passed settled, wherever the loop stands when it comes. |
| `DeliveryRuns.LedgerKeeps` | internal/spool/spool.go:401-932 | No ledger operation, crash or restart unsettles a record or the batch in hand. |
| `DeliveryRuns.FreshDestination` | internal/spool/spool.go:748-758 | A destination registered for the first time starts at the end of the log with nothing owed. |
| `DeliveryRuns.AppliedOnce` | internal/pipeline/dispatcher.go:267-314 | A backend that keeps the first copy per ID applies no ID twice and every received ID once. |
| `DeliveryRuns.FirstCopyApplied` | internal/usage/usage.go:98-101 | What such a backend has applied is exactly the copy of each ID received first, whatever the quantities of the later ones. |
| `DeliveryRuns.DeliverySafety` | internal/pipeline/dispatcher.go:135-236 | Over every run of appends, crashes, restarts, compactions, failed cursor writes, rewinds and the separate steps of the loop in any order, whatever the backend answers: every record in (start, cursor] was accepted, filtered out or dead-lettered, nothing is sent that the ledger does not hold, and each event is applied at most once. |
| `DeliveryRuns.ExactlyOnce` | internal/pipeline/dispatcher.go:135-236 | Once the cursor has reached the end of the log, every ID this destination takes is applied or dead-lettered, none is applied twice, and nothing foreign is applied or dead-lettered. Recorded events may share an ID: an event that is in neither is stood for by another event with its ID. |
| `DeliveryRuns.RewindThen` | internal/spool/spool.go:772-780 | After a rewind the rest of the round leaves the cursor at the rewind, or at the end of the batch it acknowledges if that lies beyond. |
| `DeliveryRuns.RewindUndone` | internal/pipeline/dispatcher.go:157 | A rewind takes effect whatever the backend answers exactly when, at the moment it comes, the loop has nothing in hand that is numbered beyond it: no batch, no batch to be read at the cursor looked up, none read, none delivered. |
| `ConcreteRuns.RewindSlips` | internal/pipeline/dispatcher.go:157 | A concrete run from an empty directory: an operator rewinds to 0 after the loop has looked its cursor up, and the cursor ends at the end of the log. |
| `DeliveryRuns.FirstCursorLost` | internal/spool/spool.go:748-758 | After a restart behind an append a destination starts where it first started exactly when its first cursor was written; otherwise at the end of the log. |
| `ConcreteRuns.FirstCursorSlips` | internal/spool/spool.go:748-758 | A concrete run from an empty directory in which the destination starts behind a window that is never delivered to it. |
| `DispatcherObject.Dispatcher.EnsureTenants` | internal/pipeline/dispatcher.go:241-265 | The loop over a batch's tenants, each once, skipping those already as registered and stopping at one to retry. |
| `Delivery.SendExtends` | internal/pipeline/dispatcher.go:273-292 | One call to the backend only adds what it was sent and parks nothing; accepted, it accounts for every event once, and rejected in part, it confirms exactly the events not rejected. |
| `DispatcherObject.Dispatcher.AddDeadLetter` | internal/pipeline/dispatcher.go:286-288 | One dead letter more, or none when its write fails. |
| `DispatcherObject.Dispatcher.ParkPartial` | internal/pipeline/dispatcher.go:277-292 | Parks the rejected events in order and counts them; stops at a write that fails. |
| `DispatcherObject.Dispatcher.Deliver` | internal/pipeline/dispatcher.go:269-314 | Success accounts for every event exactly once, accepted or parked; failure means exactly that one of the attempt's own calls was to be retried or a dead letter could not be written; and the world is that of the delivery function. |
| `DispatcherObject.Dispatcher.Select` | internal/pipeline/dispatcher.go:176-187 | The events this destination takes, in order, and how many it does not. |
| `DispatcherObject.Dispatcher.Attempt` | internal/pipeline/dispatcher.go:188-217 | Delivers what a batch holds and adds delivered and dead-lettered counts that sum to it; a failure counts once and nothing else. |
| `DispatcherObject.Dispatcher.Turn` | internal/pipeline/dispatcher.go:156-235 | One turn runs the four steps of the run model. When the acknowledgement is saved, the cursor reported is that of the last record, the failures are cleared, and delivered, skipped and dead-lettered grow by exactly the events of the batch of each kind; when saving it fails the cursor has moved in memory and filtered records are not counted, and when nothing is delivered nothing is. |
| `Windows.Truncate` | internal/controller/controller.go:296 | The multiple of the interval at or before an instant; the instant itself for an interval that is not positive. |
| `Windows.CatchUp` | internal/controller/controller.go:299-316 | With an aligned watermark and MaxBackfill > 0 a catch-up meters between one and ⌈MaxBackfill/size⌉ windows, aligned, adjacent, after the watermark and up to the latest boundary, and skips only windows that ended MAX_BACKFILL or more before it. |
| `Windows.FirstCollection` | internal/controller/controller.go:295-316 | Without a watermark exactly the latest window is metered. |
| `Windows.EmptyWindowList` | internal/controller/controller.go:299-316 | Something is due but the window list is empty, so that fillTenantGaps indexes nothing, exactly when MaxBackfill <= 0 or the watermark lies less than one interval before the latest boundary. |
| `Windows.CommittedTiles` | internal/controller/controller.go:333-346 | What one call commits, even part of it, is aligned and without a gap, and begins right behind the watermark, or else with the first window not older than MAX_BACKFILL at this call. |
| `Windows.RunTiles` | internal/controller/controller.go:289-347 | Over every run, failures and retries included, the committed windows are aligned and strictly ordered; two neighbours are adjacent, or some call of the run had the earlier as its watermark, committed the later first, and found every window between them older than MAX_BACKFILL; and the watermark is the last of them. |
| `Windows.TiledDisjoint` | internal/controller/controller.go:313-316 | Windows tiled like this never overlap. |
| `Windows.CatchesUp` | internal/controller/controller.go:289-347 | A catch-up that is not interrupted ends at the latest boundary, also after interrupted ones. |
| `CollectorRuns.CollectorKeeps` | internal/controller/controller.go:333-346 | Every step, of the collector or of the ledger, crashes and restarts included, keeps its windows in the log those of the collections begun. |
| `CollectorRuns.LedgerTiles` | internal/controller/controller.go:289-347 | Over every run of the ledger from an empty directory, with failed appends, crashes at any byte, restarts, compactions and other sources between the commits, the window ends the collector has in the log are aligned, strictly ordered and adjacent but for spans MAX_BACKFILL cut in a collection of the run, and the watermark is the last of them. |
| `Gaps.MissedIs` | internal/controller/controller.go:392-397 | A fill covers exactly the span's windows that are not older than MAX_BACKFILL. |
| `Gaps.StoreKeepsName` | internal/controller/controller.go:376-379 | The gap store keeps the name of a failed window exactly when its end is a whole second. |
| `Gaps.StepOk` | internal/controller/controller.go:361-420 | One collection keeps every failed window filled, too old or inside the span, and the span free of windows that were never committed. |
| `Gaps.GapRemembers` | internal/controller/controller.go:361-420 | Over every run whose commit loops complete, each failed window of a tenant that stays discovered is in the span until it is filled or older than MAX_BACKFILL, and a window skipped by the backfill cap is never filled. When a window metered live is filled is LiveWindowRefilled. |
| `Gaps.LiveWindowRefilled` | internal/controller/controller.go:361-420 | Over every run before and after, a window metered live is metered again as a missed one exactly when a later fill has a span that covers it and it is not too old, which none has unless a later failure stretched a span over it that was open since before it. |
| `Gaps.LiveFilledAgain` | internal/controller/controller.go:364-365 | A concrete run in which a window that was metered live, and never missed, is filled. |
| `Gaps.FillsAreExact` | internal/controller/controller.go:361-420 | When fills succeed whenever the API answers and no commit loop is cut, each fill meters exactly the failed windows not yet filled and not older than MAX_BACKFILL. |
| `Gaps.PartialCommitForgets` | internal/controller/controller.go:333-347 | When a commit loop fails part-way, or the process ends before the gaps are seen to, the windows a down tenant missed in it are accounted for exactly when none had been committed, whatever span was open. |
| `Gaps.RunShaped` | internal/controller/controller.go:361-420 | Over every run, however its calls end, the span lies on committed window ends and nothing behind the watermark's reach is filled. |
| `Gaps.ForgottenWindow` | internal/controller/controller.go:333-420 | Such a window is filled, covered or too old after any later run exactly when it is too old by then, or a later call that finished found the tenant down again and a span still open from before the window; otherwise it is never filled. |
| `Gaps.FirstHourForgotten` | internal/controller/controller.go:333-347 | A concrete run in which the first window a tenant missed is forgotten. |
| `ControllerObject.AppendMovesWatermark` | internal/spool/spool.go:510-512 | An append moves the watermark of its own source when it commits a window, and no watermark otherwise. |
| `ControllerObject.DueAscends` | internal/controller/controller.go:313-316 | The windows due are in strict order and after the watermark. |
| `ControllerObject.IngestRemembers` | internal/spool/spool.go:417-447 | An ingest leaves the watermarks alone and remembers every event it was given unless its write fails. |
| `ControllerObject.IngestWrites` | internal/spool/spool.go:417-447 | A fill writes exactly its new events, in order, and one commit record that names no window, or nothing when there are none or the write fails. |
| `ControllerObject.WindowsHeld` | internal/controller/controller.go:333-340 | For every list of windows the ledger payloads are, window by window, all events metered for it, in order, then one commit record with its end and their number; a note stands in the first commit alone. |
| `ControllerObject.NoteTells` | internal/controller/controller.go:301-312 | The note names exactly the time between the watermark and the first window that is skipped, and is empty when none is. |
| `ControllerObject.FillHolds` | internal/controller/controller.go:398-414 | What a fill that works writes: every event of every window it fills is known already or written now, no ID twice, and one commit record counts them. |
| `ControllerObject.CollectionIsTenantStep` | internal/controller/controller.go:361-420 | For every target the gap a collection leaves and the windows it fills are those of its tenant's step, so the results over runs hold of the object. |
| `ControllerObject.Controller.DueWindows` | internal/controller/controller.go:295-316 | The window loop builds exactly the windows due, and the note about a cut span. |
| `ControllerObject.Controller.CommitWindow` | internal/controller/controller.go:334-346 | The ledger grows by all events metered for the window, in order, and one commit record that names it and counts them, or by nothing; the watermark and the reported window move to its end. |
| `ControllerObject.Controller.CommitWindows` | internal/controller/controller.go:333-346 | The windows are committed in order up to the first append that fails, and for each of them the ledger holds all its events and one commit record that counts them. |
| `ControllerObject.Controller.RecordFailed` | internal/controller/controller.go:368-379 | Every failed tenant's span runs from its first failed window to this last one; other spans stay. |
| `ControllerObject.Controller.FillTarget` | internal/controller/controller.go:386-418 | One tenant's span is dropped, kept or filled exactly as defined; a fill covers the owed windows and its events are remembered. |
| `ControllerObject.Controller.Ingest` | internal/controller/controller.go:406-414 | The ledger grows by exactly the events of the missed windows not seen before, and a commit record; all of them are remembered afterwards. |
| `ControllerObject.Controller.FillTenantGaps` | internal/controller/controller.go:367-420 | All spans after the loop: recorded for the failed, settled for every target, untouched for others; filled are exactly tenants that answer, each with the windows it is owed. |
| `ControllerObject.Controller.CollectDue` | internal/controller/controller.go:291-347 | The outcome, the watermark, the ledger and the gaps after one collection, for every way it can go: not ready, nothing due, metering failed, a commit failed, the empty window list, or complete. For each window committed the ledger has grown by all its events and one commit record; behind them stand only fills. |
| `Contracts.KeyRoundTrip` | internal/destinations/metronome/adapter.go:283-318 | For every non-empty rate card, day, n ≤ 9 and tenant the created key gives back the rate card's token, gives "" to a tenant with another hash, and is at most 103 bytes, so the 128-byte rejection is unreachable. |
| `Contracts.KeysDistinct` | internal/destinations/metronome/adapter.go:377-384 | Two keys are equal exactly for the same card token, day, counter and tenant hash. |
| `Contracts.LegacyKeyAmbiguous` | internal/destinations/metronome/adapter.go:314-316 | A v0.2.0 key is also read by another tenant exactly when "<other>-" is a proper prefix of "<tenant>-<rate card>". |
| `Contracts.TokensDiffer` | internal/destinations/metronome/adapter.go:289-299 | Rate cards have equal tokens exactly when they are equal, or both are longer than 64 bytes and their hashes are equal, or the short one is "h" followed by the hash of the long one. |
| `Contracts.LegacyRoundTrip` | internal/destinations/metronome/adapter.go:314-316 | A v0.2.0 key gives its own tenant the token of the rate card it was made for. |
| `Contracts.OtherCardsKey` | internal/destinations/metronome/adapter.go:301-318 | A key made for a rate card, of either version, is read as another's exactly when the two are equal or confused like that. |
| `Handover.CreateKeeps` | internal/destinations/metronome/client.go:255-265 | Whatever another replica does first: a created contract is open from its start, is the one contract more and uses a key never used before; a conflict means the key was used and nothing changed; other contracts stay. |
| `Handover.TryKeysGrants` | internal/destinations/metronome/adapter.go:377-426 | createContract only adds contracts, and what it grants, created or found open after a conflict, is in the store, open and on the rate card; the length limit is never met. |
| `Handover.TryKeysQuiet` | internal/destinations/metronome/adapter.go:377-426 | Without another replica it creates one contract with the first free key of the day, or none. |
| `Handover.CloseOne` | internal/destinations/metronome/adapter.go:444-449 | One request ends or archives exactly its contract, and is never turned down for an end before the start. |
| `Handover.EndOthersCloses` | internal/destinations/metronome/adapter.go:432-463 | endOtherContracts closes exactly the listed contracts open at the takeover, except those refused for good, and touches no other. |
| `HandoverRuns.EnsureShape` | internal/destinations/metronome/adapter.go:337-375 | Every outcome of one uncached call: which contracts can differ afterwards, and how. |
| `HandoverRuns.HandsOver` | internal/destinations/metronome/adapter.go:337-463 | A completed uncached ensureContract leaves the kept contract open on the rate card and no other vBilling contract of the tenant in force from the takeover instant on, except ends refused for good and contracts another replica created meanwhile. |
| `HandoverAnswers.KeepsItsCard` | internal/destinations/metronome/adapter.go:341-375 | A completed uncached call for one rate card never keeps a contract made for another, and leaves none of those it found open from the takeover on but where the end was refused, unless the two cards are confused by their tokens. |
| `HandoverAnswers.KeepsWhatIsThere` | internal/destinations/metronome/adapter.go:351-368 | Without another replica, a contract already open on the rate card is kept, or one that started no later, and none is created. |
| `HandoverAnswers.HandsOverExactly` | internal/destinations/metronome/adapter.go:432-463 | After a completed uncached call every other contract it found of the tenant, whose end was not refused, is in force at exactly the instants it was before, short of the later of today and the start of the contract kept: nothing is cut earlier and nothing remains behind it. |
| `HandoverAnswers.EndOthersAnswers` | internal/destinations/metronome/adapter.go:432-463 | endOtherContracts fails exactly when one of its requests was lost, and gives up on a contract exactly when one was refused. |
| `HandoverAnswers.TryKeysAnswers` | internal/destinations/metronome/adapter.go:377-426 | createContract fails exactly when one of its requests was not answered. |
| `HandoverAnswers.EnsureAnswers` | internal/destinations/metronome/adapter.go:341-375 | An uncached call completes with no end refused exactly when all its requests were answered and the nine keys of the day did not run out; with a request lost it never completes. |
| `HandoverAnswers.ConflictAdopts` | internal/destinations/metronome/adapter.go:399-421 | A key another replica took a moment before is adopted when its contract is open, and nothing is created. |
| `HandoverAnswers.CachedExactly` | internal/destinations/metronome/adapter.go:341-345 | No request is made exactly when the card is the one last completed for the tenant, where none counts as the empty card; and what is remembered changes only with a call that completes. |
| `HandoverRuns.EnsureQuiet` | internal/destinations/metronome/adapter.go:341-375 | Without another replica the kept contract is the open one that started first, or else the one new contract, from today. |
| `HandoverRuns.SequentialDisjoint` | internal/destinations/metronome/adapter.go:432-463 | Contracts that follow one another are never in force together. |
| `HandoverRuns.EnsureSettles` | internal/destinations/metronome/adapter.go:341-375 | A call that completes, or changes nothing, keeps the contracts one after another; if it reports success exactly one is open, on the requested card. |
| `HandoverRuns.RunSettles` | internal/destinations/metronome/adapter.go:337-463 | From a store without contracts of the tenant, after calls that complete or change nothing, a call that reports success leaves exactly one contract open, on the requested card. |
| `HandoverRuns.RunOverlaps` | internal/destinations/metronome/adapter.go:337-463 | What is in force together at an instant is settled by the calls up to its day, and no later call changes it. |
| `HandoverRuns.OverlapAt` | internal/destinations/metronome/adapter.go:337-463 | On the days from one call to the next day with a call, two contracts are in force together for good exactly when the calls so far left two open. |
| `HandoverRuns.RunStaysDisjoint` | internal/destinations/metronome/adapter.go:337-463 | Over every run with a non-decreasing clock, with calls interrupted anywhere and restarts that lose the adapter's state, the tenant's contracts are pairwise never in force together exactly when every day ends with at most one open. |
| `HandoverRuns.CompletionSettles` | internal/destinations/metronome/adapter.go:341-375 | A completed uncached call with no end refused leaves exactly one contract open, on its card, whatever interrupted calls left open before. |
| `HandoverRuns.InterruptedSpan` | internal/destinations/metronome/adapter.go:444-463 | After an interrupted change and a later completed call, the contracts are in force together on exactly the span from the day of the first to the day of the second, if the first left two open; so never, if both fall on one day. |
| `HandoverRuns.RepeatedNextDay` | internal/destinations/metronome/adapter.go:451-455 | A concrete change that fails once and is repeated the next day completes with nothing refused, and both contracts stay in force on exactly the day between. |
| `HandoverRuns.RunLeavesOthers` | internal/destinations/metronome/adapter.go:337-463 | Over every run, with any failure, lost reply or other replica, contracts with foreign keys stay exactly as they are, none disappears, and vBilling's own are only shortened. |
| `HandoverRuns.Adopts` | internal/destinations/metronome/adapter.go:346-368 | A restarted or second replica adopts the open contract: nothing is created, ended or archived. |
| `HandoverRuns.NineKeysADay` | internal/destinations/metronome/adapter.go:377-426 | With an API that answers, createContract fails for good exactly when the day's nine keys are used up; otherwise it takes the first free one. |
| `HandoverRuns.ChangeTakenBack` | internal/destinations/metronome/adapter.go:341-375 | After a change of rate card that failed half-way and was taken back, ensureContract reports success without a call, and the old card's contract is the only one open exactly when the failed change created none. |
| `HandoverRuns.ChangeTakenBackSlips` | internal/destinations/metronome/adapter.go:341-375 | A concrete run in which both contracts stay in force although ensureContract reports success. |
| `AdapterObject.Adapter.CreateContract` | internal/destinations/metronome/adapter.go:377-426 | The loop over the day's keys, with its re-listing after a conflict, does what the protocol function does. |
| `AdapterObject.Adapter.EndOtherContracts` | internal/destinations/metronome/adapter.go:432-463 | The loop over the tenant's contracts ends or archives them as the protocol function does. |
| `AdapterObject.Adapter.Examine` | internal/destinations/metronome/adapter.go:351-363 | One pass over a listing gives its keys, the tenant's contracts and the open one on the card that started first. |
| `AdapterObject.Adapter.EnsureContract` | internal/destinations/metronome/adapter.go:341-375 | Store, remembered card and result are those of the protocol function, whose result keeps to the card asked for (KeepsItsCard), hands over at the takeover (HandsOverExactly) and completes exactly when answered (EnsureAnswers). |
| `Metering.NodeInfo.MarkDown` | internal/metrics/nodes.go:204-213 | The node's state after one more mark, an unknown start dominating. |
| `Metering.MarksKeepEarliest` | internal/metrics/nodes.go:204-213 | Whatever the order of the marks, the node is down since the earliest of them. |
| `Metering.SplitMeasures` | internal/usage/usage.go:193-206 | Overlap and split count exactly the instants of the lifetime in the window, those with the node up and those with it down, so the parts are non-negative and sum to the overlap. |
| `Metering.ClampStopsAtDeletion` | internal/metrics/collector.go:544-547 | Clamping a pod's end at its deletion keeps exactly the instants before the deletion. |
| `Metering.TilingConserves` | internal/metrics/nodes.go:215-228 | Over any tiling of [A, B) billable time and downtime each add up to those of the single window, so backfilling changes nothing. |
| `Metering.RoundIsClose` | internal/usage/usage.go:208-212 | Round moves a quantity by at most half a unit of the ninth place, keeps order, and leaves rounded quantities alone. |
| `Metering.QuantityIsHourly` | internal/metrics/collector.go:591 | A quantity is its rate per hour: over n hours it is n times the rate. |
| `Metering.RoundedTotalIsClose` | internal/usage/usage.go:208-212 | Rounding every event moves an n-window total by at most n/2 units of the ninth place from the unrounded whole. |
| `Identity.SortSorts` | internal/usage/usage.go:115-119 | The sorted keys are strictly ascending and the same keys. |
| `Identity.OrderIndependent` | internal/usage/usage.go:115-125 | The string hashed does not depend on the order a map yields its keys in. |
| `Identity.JoinInjective` | internal/usage/usage.go:103-125 | Parts without NUL bytes can be read back from the string that joins them. |
| `Identity.Canonical` | internal/usage/usage.go:98-127 | For NUL-free fields and dimension keys Validate accepts, two events hash the same string exactly when tenant, metric, window, region, project, SKU, resource and dimensions are equal. |
| `Identity.IDsIdentify` | internal/usage/usage.go:98-127 | Derived IDs are equal exactly for equal identities, or for two identity strings the hash confuses. |
| `Confusion.SameString` | internal/usage/usage.go:98-127 | Two events hash the same string exactly when their fields and dimensions, cut at every NUL byte, are the same pieces in the same order. |
| `Confusion.OnlyThen` | internal/usage/usage.go:98-127 | A valid event shares its string with another identity only if it has a dimension, or a NUL byte in region, project, SKU or resource ID, or a tenant that holds a metric code and a window between NUL bytes. |
| `Confusion.ConfusedExactly` | internal/usage/usage.go:98-127 | For every valid event: some valid event of another identity hashes the same string if and only if it has a dimension, or a NUL byte in region, project, SKU or resource ID, or a tenant that holds a metric code and a window between NUL bytes. |
| `Confusion.NulConfuses` | internal/usage/usage.go:153-176 | Two events Validate accepts, of different identities, that hash the same string. |
| `Identity.DeriveID` | internal/usage/usage.go:102-127 | The loops over fields and sorted dimensions build the derived ID. |
| `Accumulation.AddAllFiles` | internal/metrics/collector.go:192-220 | After any calls of add, every key is listed once and its event sits under its own ID. |
| `Accumulation.AddAllLists` | internal/metrics/collector.go:199-206 | The keys are listed in the order in which they were first added. |
| `Accumulation.AccumulationConserves` | internal/metrics/collector.go:180-232 | For zero-quantity templates a window has one event per identity, each with exactly the positive quantities added to it, summing to all positive quantities added. |
| `Accumulation.MergeBump` | internal/metrics/tenant.go:82-89 | A larger sum in the temporary accumulator is the same larger sum after the merge. |
| `Accumulation.MergeIsDirect` | internal/metrics/tenant.go:73-89 | Temporary-then-merge gives the same map and the same order as adding directly. |
| `Accumulation.WindowHandsOver` | internal/metrics/collector.go:295-315 | A window's events go out in strictly increasing order of ID, each under the ID of its own identity, one per key, their rounded quantities within n/2 units of the ninth place of what was accumulated. |
| `Accumulation.WindowDescribes` | internal/metrics/collector.go:192-206 | Every event a window hands over has the window's start and end, the collector as its source and the time and schema of the collection, and the tenant, metric, place, dimensions and unit of something positive that was added; and everything positive that was added has its event there, under the ID of its identity in the window. |
| `Accumulation.AccumulatedIsValid` | internal/usage/usage.go:153-176 | An accumulated event is refused by Validate exactly for its tenant, metric, window or dimension keys, never for its derived ID or its rounded quantity. |
| `Accumulation.SortsAlike` | internal/metrics/collector.go:313 | Sorting the finalized events by ID puts them in the order of their sorted keys. |
| `AccumulatorObject.Accumulator.Add` | internal/metrics/collector.go:192-220 | The map and the order after one observation, merged by identity. |
| `AccumulatorObject.Accumulator.List` | internal/metrics/collector.go:222-232 | The events in first-seen order. |
| `AccumulatorObject.Accumulator.FinishWindow` | internal/metrics/collector.go:295-315 | A window comes out exactly when all its events are valid: finalized, each once, in order of ID. |
| `AccumulatorObject.Accumulator.Finalize` | internal/usage/usage.go:131-144 | Every event in its listed order, its quantity rounded, its unit and times set and its ID that of its identity. |
| `AccumulatorObject.Accumulator.MergeFrom` | internal/metrics/tenant.go:82-89 | Adds every event of the temporary accumulator with its sum. |
| `AccumulatorObject.CollectTenant` | internal/metrics/tenant.go:62-90 | All or nothing: on failure no accumulator changes, otherwise each is as if the observations had been added directly. |
| `PodMetering.Parts` | internal/metrics/collector.go:544-547 | The instants of the window in which the pod ran, up to its deletion: those with its node up, and those with it down. |
| `PodMetering.MeterWindow` | internal/metrics/collector.go:573-607 | One pod in one window adds each of its resources for the billable time and, for GPUs with downtime, the downtime; up through a window of n hours it adds exactly n times its rate of each. |
| `PodMetering.MeterPod` | internal/metrics/collector.go:536-573 | A pod that never started adds nothing; a started one adds its part to every window. |
| `PodMetering.MeterPods` | internal/metrics/collector.go:532-632 | Every accumulator ends as if exactly the additions of all pods for its window had been made, pod by pod, in hours (WindowHours, DownHours). |
| `PodMetering.WindowHours` | internal/metrics/collector.go:573-607 | A pod that is up all through a window of n hours is metered for exactly n times each of its rates, and for no downtime. |
| `PodMetering.DownHours` | internal/metrics/collector.go:592-607 | A resource whose node is down all through a window of n hours is metered for no use and, if its downtime is metered, for exactly n times its rate. |
| `PodMetering.PodsAdd` | internal/metrics/collector.go:532-632 | What metering adds to a window under any choice of templates is what its pods are metered for under them, billable time and downtime. |
| `PodMetering.IdentityMetered` | internal/metrics/collector.go:192-220 | After metering, the event of an identity holds at least what the pods are metered for under it, and no more exactly when nothing with another identity has its ID. |
| `PodMetering.WindowsAddUp` | internal/metrics/collector.go:532-632 | However a span is divided into windows, what the pods are metered for adds up to the span, under any choice of templates. |
| `PodMetering.MeteringConserves` | internal/metrics/collector.go:532-632 | Whatever the pods, their health and their deletions, and however a span is divided into windows, what the windows hold under one identity adds up to what its pods are metered for over the span, and so does the span metered as one window: each exactly when nothing metered there has another identity and the same ID, and never to less. |
| `PodMetering.TotalConserves` | internal/metrics/collector.go:532-632 | The total over all identities adds up in every case. |
| `Deletions.SeenRemembered` | internal/metrics/graveyard.go:171-182 | A listing is remembered exactly until a prune more than the retention after it. |
| `Deletions.DeletionDated` | internal/metrics/graveyard.go:97-113 | A deletion noticed late is dated to the last listing of the object exactly when no prune came more than the retention after that listing, and otherwise to when it is noticed. |
| `Deletions.DeadKept` | internal/metrics/graveyard.go:183-192 | A recorded deletion is kept, with its date, unless a prune came more than the retention after that date; nothing else is kept. |
| `Deletions.MeteredStart` | internal/controller/controller.go:296-316 | A window a collection can meter or fill starts no earlier than MAX_BACKFILL before the latest boundary. |
| `Deletions.OutlivesWindows` | cmd/vbilling/main.go:134-139 | With the configured retention, MaxBackfill a multiple of the interval and prunes less than one interval after the collection began, a deleted object whose life overlaps a window that can still be metered or filled is still there, with its date. |
| `GraveyardObject.ExpireSeen` | internal/metrics/graveyard.go:173-182 | Forgets exactly the listings older than the cutoff. |
| `GraveyardObject.ExpireGone` | internal/metrics/graveyard.go:183-192 | Forgets exactly the deletions older than the cutoff. |
| `GraveyardObject.Graveyard.RecordPod` | internal/metrics/graveyard.go:97-104 | One deleted pod more, dated by when a collection last listed it if the deletion was noticed late. |
| `GraveyardObject.Graveyard.RecordNode` | internal/metrics/graveyard.go:106-113 | One deleted node more, dated the same way. |
| `GraveyardObject.Graveyard.SeenPods` | internal/metrics/graveyard.go:128-137 | Every listed pod is marked seen now, no other. |
| `GraveyardObject.Graveyard.SeenNodes` | internal/metrics/graveyard.go:116-125 | Every listed node is marked seen now, no other. |
| `GraveyardObject.Graveyard.PruneLocked` | internal/metrics/graveyard.go:171-193 | Listings and deletions older than the retention go, all others stay. |
| `GraveyardObject.Graveyard.Pods` | internal/metrics/graveyard.go:140-154 | Prunes, then gives exactly the remaining deleted pods of the namespace. |
| `GraveyardObject.Graveyard.Nodes` | internal/metrics/graveyard.go:157-169 | Prunes, then gives exactly the remaining deleted nodes. |
| `GraveyardObject.WithDeleted` | internal/metrics/collector.go:88-101 | Every live pod once without a date, then exactly the deleted pods that are not live, with theirs. |

## Left out

- JSON encoding and SHA-256: a codec with a left inverse, no raw newline and 64-byte digests stands for both.
- peekWindow's text search: a codec parameter that finds the window of an event's line and none in a commit's.
- Instants before year 1, and durations over 292 years, where the program's subtraction saturates.
- Segment file names: segments are found by the number their name carries, not by its zero-padded form.
- I/O failures other than a failed append, a failed dead letter and a failed cursor write, such as failing removes or manifest writes.
- The ingest-ID file is modelled as a map from ID to second, not as lines; a crash between an append and recording its IDs is a crash after which they are not remembered.
- Event properties: informational fields that are merged beside the quantity and never part of an identity.
- Concurrency inside one process: locks, the changed channel, and Verify reading its snapshot and the anchor under two locks.
- A callback of Scan that returns an error, and the cut of verification errors at twenty.
- Operator cursor moves forward, which skip records on purpose, and dead-letter replay beside the dispatcher: excluded from the runs of the delivery results, which hold of any rewind to where the destination started or later.
- Dead letters are the events themselves, without the reason and the time recorded beside them.
- The rate card a create request carries beside its key: a contract stands under the card its key was made for.
- Backoff, telemetry, log lines and status timestamps of the dispatcher and the controller.
- Billable metrics, customers and Stripe links of the Metronome adapter; only contracts are modelled.
- Other replicas of the adapter are contracts that appear before any call; their ends and archivals are not modelled.
- The Metronome contract list stops after 100 pages of 20; listings are complete here.
- A gap-store value that cannot be parsed: values are spans, and only a reversed span is dropped.
- A collector without a tenant API: fillTenantGaps then stops after recording; the collector modelled has one.
- Where templates, rates, lifetimes and down-since times come from: labels, GPU allocations, requests and pod status are given. meterWholeNode, volumes, load balancers and Prometheus queries add to the same accumulators and are not modelled.
- CPU and memory on the usage basis: its rate is sampled for the latest window only, whereas rates here hold for every window.
- Floating point: quantities are exact reals until they are rounded to nine places.
- Nodes are kept by name, so a node deleted and created again under its name is metered as the new one only.
- ControllerObject.Controller.CollectDue: asks that the clock is past the first interval since year 1 and that failed tenants and targets are listed once, as discovery yields them.
- Deletions.OutlivesWindows: asks for a MAX_BACKFILL that is a multiple of the interval; for others a window may begin up to one interval earlier than the retention covers.
- HandoverRuns.RunStaysDisjoint: asks for a single replica and a clock that does not go back.
- The HTTP API, dashboard, enforcement, discovery enrichment and the other destinations: plumbing with only shallow claims.
