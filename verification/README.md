# Vyomanaut in Dafny

Vyomanaut is a storage network: a coordinator audits providers, scores them, queues repairs and keeps
an escrow ledger; a provider stores chunks and answers challenges; an operator console watches both.
This project models the parts of that system whose correctness spans several functions, two binaries
or the SQL schema, and proves what they promise over every input and every run. Where the code does
not keep a promise its comments make, the model keeps the code, and a lemma says exactly when the
promise holds.

`dafny verify dfyconfig.toml` checks everything.

- `AuditReceipts.dfy`, `AuditDispatch.dfy`, `AuditWire.dfy`: the receipt table under its policies and CHECKs, the challenge protocol with the vetting streak, and the frames between the two binaries.
- `JitPenalty.dfy`: the penalty view against an online rule.
- `UploadPath.dfy`, `BackgroundSemaphore.dfy`: the single-writer upload path over the value log and the resizable semaphore, over all interleavings.
- `KeysetPaging.dfy`, `RepairPaging.dfy`, `RepairQueue.dfy`: paging over a changing table, the repair queue and its cursor.
- `Assignments.dfy`, `VettingGC.dfy`: shard slots, replacement, and the deletion protocol on both ends.
- `Payments.dfy`: the ledgers and the monthly charge under retries.
- `ChallengeGates.dfy`: the nonce version tracker and the admin challenge endpoint.
- `Forecast.dfy`, `Console.dfy`, `EventFeed.dfy`: the operator console as a state machine.
- `GF256.dfy`, `LinearAlgebra.dfy`, `ReedSolomon.dfy`, `SegmentPipeline.dfy`: the erasure code from its lookup tables up, and a segment's way out and back.
- `ValueLog.dfy`, `CompactionRace.dfy`: the chunk store from its bytes up: value log, index, torn writes, recovery, compaction, and compaction while the daemon keeps running.

## Results that contradict the comments

- The table comment on `escrow_events` debits REVERSAL; the view, the summary and the departure query
  credit it. The model follows the view.
- A synthetic chunk left unconfirmed by one deletion delivery is never delivered again, and a delivery in
  flight can undo the retirement of a departed provider's rows.
- A penalty the third flag starts and nothing renews is not the rule of the penalty view.
- A restart brings back every deleted chunk still in the value log. Torn bytes left by a failed write stay
  in the file until a compaction: what is uploaded after them can be read back only if it happens to repeat
  the bytes before it, and restarts then scan no further than the tear, barring a hash accident.
- After a failed write or fsync the daemon is to halt; the writer goroutine answers the error and takes the
  next request, which is acknowledged and signed for and usually cannot be read back.
- A compaction loses chunks uploaded while it runs, undoes deletions, can lose a stored chunk after a torn
  write, and loses chunks when it is cancelled; lemmas say exactly when.
- A monthly charge retried after a shard moved can pay providers less or more than the owner was charged.
- The console announces codes again after a shorter read of the delivery log followed by a longer one.
- The console's ETA is the right order statistic only for profiles neither of which is shipped.
- The erasure code recovers from any k shards only up to 255 shards in all.

## Conventions

Times are integers, scores and fractions exact reals. Hashes, signatures, ciphers, base64 and UUID text
are arbitrary functions with only the stated properties. Random draws, clocks, network outcomes and
database faults are parameters, so every statement holds for all of them. Integer widths are explicit
where they matter: uint32 lengths, int64 timestamps and their wrap-around, byte arithmetic in GF(2^8).

## Model

| member | source | states |
|---|---|---|
| `AuditReceipts.RunKeepsSound` | migrations/generator.go:821-831 | Over every interleaving of the three coordinator writes and the collector write, each row is in exactly one of five states, satisfies every CHECK, and nonces are guarded and never repeat. |
| `AuditReceipts.RunEvolves` | migrations/generator.go:1254-1340 | Terminal and abandoned rows never change again; a recorded response is never rewritten; an answered row never becomes TIMEOUT; Phase 1 columns never change and no row disappears. |
| `AuditReceipts.ExecKeepsSound` | internal/audit/receipt.go:191-260 | One statement, with its WHERE clause, its policies ORed separately for USING and WITH CHECK, and the CHECKs, keeps the table sound. |
| `AuditReceipts.ExecEvolves` | internal/audit/receipt.go:306-442 | What one statement may do to one row. |
| `AuditReceipts.ReachableIsSound` | migrations/generator.go:821-831 | Every table reachable from the empty one is sound. |
| `AuditReceipts.ReplayRefused` | internal/audit/receipt.go:191-260 | Once on record, a nonce is refused after any further run, whatever receipt id or time it comes with. |
| `AuditReceipts.IssuesIff` | internal/audit/receipt.go:191-260 | Phase 1 is accepted exactly for a new receipt id and nonce of the right size, and leaves an empty pending row. |
| `AuditReceipts.RecordsIff` | internal/audit/receipt.go:306-352 | A response is recorded exactly on a pending row without one, four columns together, and changes nothing else. |
| `AuditReceipts.ClosesIff` | internal/audit/receipt.go:398-442 | A pending row is closed exactly as PASS or FAIL over a recorded response or as TIMEOUT without one. |
| `AuditReceipts.AbandonsIff` | migrations/generator.go:1299-1340 | The collector abandons exactly the rows still pending more than 48 hours after they were issued. |
| `AuditReceipts.SchemaAdmitsIff` | migrations/generator.go:821-831 | What the schema alone lets the application role make of a row, whatever statement it sends. |
| `AuditReceipts.PoliciesAdmitRewriteIffPending` | migrations/generator.go:1268-1297 | The two permissive policies together let a recorded response be rewritten exactly while its row is pending, so write-once rests on the statement and not on the schema. |
| `AuditDispatch.Adjudicate` | cmd/microservice/audit_dispatch.go:515-566 | The verdict is PASS only for an OK status with a verified signature; a failed key lookup is no verdict. |
| `AuditDispatch.DispatchIsDisciplined` | cmd/microservice/audit_dispatch.go:306-433 | On every path, with each database call failing, succeeding or committing with its answer lost: exactly one Phase 1 attempt when it is reached, at most one response write, no later attempt rejected by a CHECK or policy, and a counter effect that is the one the row left behind calls for unless the answer to Phase 2 was lost. |
| `AuditDispatch.DispatchAttempts` | cmd/microservice/audit_dispatch.go:316-432 | The order and number of the statements a dispatch attempts. |
| `AuditDispatch.DispatchRow` | cmd/microservice/audit_dispatch.go:316-432 | The row a dispatch leaves, other sessions interleaved: its Phase 1 columns, the reply exactly as read or nothing of it, the signature and time of Phase 2, and the counter effect that matches it unless the answer to Phase 2 was lost. |
| `AuditDispatch.DispatchKeepsSound` | cmd/microservice/audit_dispatch.go:306-433 | A dispatch, with other sessions interleaved at both waits, keeps the table sound. |
| `AuditDispatch.DispatchLeavesOthers` | cmd/microservice/audit_dispatch.go:306-433 | A dispatch leaves every other receipt of the same coordinator as it was, unless the collector abandons it meanwhile. |
| `AuditDispatch.AnsweredPath` | cmd/microservice/audit_dispatch.go:391-432 | From an unanswered row, the response write and the adjudication succeed or affect no row, and never disturb Phase 1 columns. |
| `AuditDispatch.UndisturbedOutcome` | cmd/microservice/audit_dispatch.go:306-433 | With nothing in the way the row is TIMEOUT exactly when no reply came, adjudicated exactly when one did under a valid version, pending under a retired version, and PASS exactly for a signed OK. |
| `AuditDispatch.UndisturbedRow` | internal/audit/receipt.go:191-442 | With nothing in the way every column of the new row is determined, and no other row changes. |
| `AuditDispatch.StreakMatchesIff` | internal/scoring/passes.go:75-172 | Over any serial run of one provider still VETTING at its end, the counter equals the PASSes since the last FAIL or fresh-address TIMEOUT, read off the table after every round, if and only if no change a row calls for was missed while it mattered; stale-address TIMEOUTs, retired-version replies and calls that never ran are invisible. |
| `AuditDispatch.MissedIff` | cmd/microservice/audit_dispatch.go:408-421 | A change is missed exactly when the answer to Phase 2 is lost or the counter update fails, the row calls for a change, and it is not a reset of a counter at zero. |
| `AuditDispatch.StreakMatchesTable` | internal/scoring/passes.go:75-172 | So without those two faults the counter is that streak. |
| `AuditDispatch.ActivationPoint` | internal/scoring/passes.go:75-160 | The provider is ACTIVE at the end of a run exactly when some round completed the count at the required age. |
| `AuditDispatch.ScoreOutcome` | internal/scoring/passes.go:75-172 | A PASS adds one while VETTING and nothing afterwards, and is the only way to ACTIVE, at the required count and age. |
| `AuditDispatch.Coordinator.FinalizeTimeoutNow` | cmd/microservice/audit_dispatch.go:568-589 | The TIMEOUT write and its streak rule, as the specification function says. |
| `AuditDispatch.Coordinator.DispatchOneChallenge` | cmd/microservice/audit_dispatch.go:306-433 | The protocol run statement by statement leaves exactly the table, the attempts and the effect that the specification function gives. |
| `BigEndian.GetPut` | cmd/microservice/audit_dispatch.go:457-471 | A fixed-width big-endian field reads back what was written. |
| `BigEndian.PutGet` | cmd/provider/handler_audit.go:169-206 | Every field value read is the one whose encoding stood there. |
| `BigEndian.Int64RoundTrip` | cmd/provider/handler_audit.go:169-206 | Signed 64-bit timestamps survive the unsigned wire field. |
| `Streams.ReadStreamFull` | cmd/provider/handler_upload.go:443-453 | Under every read splitting it returns the next n bytes; it fails exactly when too few remain or the end arrives together with the last byte. |
| `Streams.ReadFull` | cmd/microservice/audit_dispatch.go:473-505 | Under every read splitting it returns the next n bytes and fails exactly when too few remain. |
| `AuditWire.WriteChallengeRequest` | cmd/microservice/audit_dispatch.go:457-471 | Filling the buffer by offset gives the length prefix, chunk id, nonce and timestamp in order. |
| `AuditWire.ReceiveRequest` | cmd/provider/handler_audit.go:165-206 | Whatever the splitting, the coordinator's frame is parsed back and exactly consumed, and only such frames are accepted. |
| `AuditWire.PayloadUndoesFrame` | cmd/provider/handler_audit.go:169-206 | The provider's parse undoes the coordinator's frame. |
| `AuditWire.FrameUndoesPayload` | cmd/provider/handler_audit.go:169-206 | Every payload the provider accepts is the frame of the request it parses to. |
| `AuditWire.DecodeAnswer` | cmd/microservice/audit_dispatch.go:473-505 | For every answer the provider writes, the coordinator decodes the same status, hash and signature. |
| `AuditWire.ReadChallengeResponse` | cmd/microservice/audit_dispatch.go:473-505 | The coordinator consumes exactly the provider's frame from any stream and decodes it. |
| `AuditWire.SigningInputsSeparate` | cmd/provider/handler_audit.go:242-271 | An OK signing input never equals a FAIL one and either determines every field it signs. |
| `AuditWire.HonestExchange` | internal/audit/validate.go:100-192 | A provider that follows the protocol is adjudicated PASS exactly when it accepted the version and held the chunk, and its signature verifies whenever one is sent. |
| `AuditWire.AuditPassesIffReadable` | cmd/provider/handler_audit.go:207-240 | An honest provider passes exactly when it accepts the version and the chunk asked for can be read from its value log; what it hashes with the nonce is data of that very id. |
| `AuditWire.ResponseFixesChunk` | cmd/provider/handler_audit.go:225-240 | Without a hash collision, equal response hashes mean the same chunk data and the same nonce, so an answer cannot be given without the chunk. |
| `AuditWire.AnswerSigns` | cmd/provider/handler_audit.go:207-271 | Each signed answer carries its status and the signature over the answer, nonce, time and provider; an OK hash is that of chunk data followed by nonce. |
| `AuditWire.UnsignedAnswers` | cmd/provider/handler_audit.go:195-230 | INVALID_NONCE answers exactly a retired version and INTERNAL_ERROR a failed read; both are one byte. |
| `JitPenalty.ViewMeansThreeFlags` | cmd/microservice/scores_view.go:71-85 | In the receipt columns alone: a provider is penalised exactly when three of its own flagged, not abandoned receipts fall in one window ending at the last of them, and that one is recent. |
| `JitPenalty.ViewEqualsMachine` | cmd/microservice/scores_view.go:71-85 | For every receipt log and instant, the stateless view equals the machine that renews the penalty at each flag completing three within the window, and equals "some closed window holds three flags, its last recent enough". |
| `JitPenalty.FeedUntil` | migrations/generator.go:1492-1521 | After any sorted flags the machine's expiry is the latest completing flag plus the penalty length. |
| `JitPenalty.QualifiesIffCompletes` | cmd/microservice/scores_view.go:71-85 | Some flag has three in its preceding window and is recent, exactly when some flag completes three and is recent. |
| `JitPenalty.WindowForm` | migrations/generator.go:1492-1501 | The windowed reading and the completing-flag reading agree. |
| `JitPenalty.RenewalMattersIff` | migrations/generator.go:1492-1501 | The comment equates the view with a penalty the third flag starts. If nothing renews it, the two agree after every flag and at every later instant if and only if any two third flags are simultaneous or more than the penalty length apart. |
| `JitPenalty.WithoutRenewalDiffers` | migrations/generator.go:1492-1501 | Four flags and an instant at which they differ. |
| `UploadPath.StepKeepsInv` | cmd/provider/handler_upload.go:299-341 | Each step of any handler, timeout or the writer keeps the invariant that ties queue, result channels and handler phases. |
| `UploadPath.WriterIsSafe` | cmd/provider/main.go:1024-1039 | In every interleaving, queued and performed writes hash to their id, and the writer's send on a result channel never blocks. |
| `UploadPath.CheckOutcome` | cmd/provider/handler_upload.go:282-298 | An upload goes on exactly when its token passes and its data hashes to its id; otherwise it is answered with the status of the failed check. |
| `UploadPath.AnswerOutcome` | cmd/provider/handler_upload.go:300-341 | ALREADY_STORED on a clean read of the chunk, then OK or INTERNAL_ERROR as the writer reported. |
| `UploadPath.UploadSucceeds` | cmd/provider/handler_upload.go:299-341 | A valid upload of a new chunk can run to its end whatever the other handlers are at: on a tidy disk with an idle writer it is answered OK and the chunk can be read. |
| `UploadPath.TimeoutChangesNothingElse` | cmd/provider/handler_upload.go:326-336 | A waiting handler may time out at any moment without touching its pending request; a deletion hides exactly its chunk. |
| `UploadPath.QueueIsBounded` | cmd/provider/handler_upload.go:316-322 | No more than 64 requests ever wait for the writer. |
| `UploadPath.AcknowledgedReadsBackIff` | cmd/provider/main.go:1024-1039 | In every run, over any disk, the chunk of an append reported as stored can be read back right after it exactly when it echoes the torn bytes before it (always, if there are none) or the window already at the head spells it. |
| `UploadPath.ReceiptsEarnedIff` | cmd/provider/handler_upload.go:299-341 | Through every run, each OK or ALREADY_STORED receipt follows a moment when its chunk could be looked up if and only if no append is acknowledged at a head where the chunk cannot be read back. |
| `UploadPath.ReceiptsAreEarned` | cmd/provider/handler_upload.go:299-341 | So from a tidy disk every receipt is earned while no write fails half way. |
| `UploadPath.FailedWriteSpoilsNext` | cmd/provider/main.go:1024-1039 | From any state over a tidy disk: a write or fsync fails with part of the entry in the file, the writer goes on although AppendChunk asks the daemon to halt, and the next upload is answered OK; its chunk can be read back exactly when it echoes the torn bytes, or is the failed chunk itself after a failed fsync. |
| `UploadPath.OneByteSpoilsNext` | cmd/provider/main.go:1024-1039 | After one torn byte that is so for the chunk of zeros alone. |
| `UploadPath.IntactPersistsIff` | cmd/provider/handler_upload.go:299-341 | A readable chunk stays so throughout a run if and only if it is not deleted, its window is not corrupted and no second append of it is acknowledged where it cannot be read back. |
| `UploadPath.IntactPersists` | cmd/provider/handler_upload.go:299-341 | From a tidy disk with no write failing half way, deletion and corruption are the only ways to lose it. |
| `UploadPath.RetryFindsStoredIff` | cmd/provider/handler_upload.go:299-341 | After a write that succeeds once its handler gave up, a clean retry answers ALREADY_STORED exactly when that write can be read back, and otherwise writes again. |
| `UploadPath.RetryFindsStored` | cmd/provider/handler_upload.go:299-341 | From a tidy disk with no write failing half way it always answers ALREADY_STORED. |
| `UploadPath.WriteNotLost` | cmd/provider/main.go:1024-1039 | An enqueued write stays pending until the writer appends it; giving up does not withdraw it. |
| `BackgroundSemaphore.StepKeepsInv` | cmd/microservice/background_loops.go:222-285 | Load, acquire, release and resize keep one token per live holder in every generation. |
| `BackgroundSemaphore.SemaphoreSafety` | cmd/microservice/background_loops.go:163-285 | After every interleaving occupancy equals live holders and is within capacity, release never blocks, the published capacity is in [1,8], and work in flight exceeds it by at most the holders of older generations. |
| `BackgroundSemaphore.ThrottleFollowsLoad` | cmd/microservice/background_loops.go:222-252 | Whatever runs in between, k slow samples lower the limit by k down to the minimum and k fast ones restore it by k up to the maximum. |
| `BackgroundSemaphore.SampleMoves` | cmd/microservice/background_loops.go:222-252 | One sample moves the limit by at most one, down exactly at 50 ms or more above the minimum, up exactly below 30 ms under the maximum, and disturbs no loop. |
| `BackgroundSemaphore.BandHolds` | cmd/microservice/background_loops.go:222-252 | Over every run without a decisive sample no channel is replaced. |
| `BackgroundSemaphore.ClientStep` | cmd/microservice/background_loops.go:254-285 | A loop loads the published channel, takes or returns its one token, or gives up, and disturbs no other loop. |
| `BackgroundSemaphore.ReducingAdmitsMore` | cmd/microservice/background_loops.go:222-275 | When the channel is full and a slow sample arrives, an idle loop is still admitted: more work runs than either limit. |
| `KeysetPaging.BuildPage` | internal/api/admin.go:548-587 | Fetching limit+1 rows and truncating gives the page and the cursor of its last row exactly when more remain. |
| `KeysetPaging.CursorsIncrease` | internal/api/admin.go:512-587 | Successive cursors strictly increase whatever happens to the table. |
| `KeysetPaging.StableRowListedOnce` | internal/api/admin.go:512-587 | A row whose key and filter membership stay fixed is listed exactly once in a completed walk over an arbitrarily changing table. |
| `KeysetPaging.StaticWalkIsListing` | internal/api/admin.go:512-587 | On a static table the pages concatenate to the matching rows in sorted order. |
| `KeysetPaging.MovedRowListing` | internal/api/admin.go:512-587 | A row whose key drops during the walk is listed once, unless the cursor then stood between its two positions: then never. |
| `RepairPaging.BeforeIsOrder` | internal/api/admin.go:533-546 | The (priority, created_at, job_id) comparison is a strict total order. |
| `RepairPaging.QueueWalk` | internal/api/admin.go:512-587 | Over the repair queue, cursors increase and a job with fixed priority and status is listed exactly once. |
| `RepairPaging.PromotionMovesUp` | internal/api/admin.go:533-546 | A promotion moves a warning past every other warning and orders it by age among the departures. |
| `RepairPaging.PromotedJobListing` | internal/api/admin.go:512-587 | A job promoted during the walk is listed once, or not at all exactly when the cursor stood between its two positions. |
| `RepairPaging.ProviderWalk` | internal/api/admin.go:257-345 | The provider list, newest first, lists every provider present throughout exactly once. |
| `RepairPaging.CursorRoundTrip` | internal/api/admin.go:406-432 | For every valid priority, int64 nanosecond time and id, decoding an encoded cursor gives them back. |
| `RepairPaging.ParseUndoesFormat` | internal/api/admin.go:406-432 | Decimal formatting of any int64 parses back, with a minus exactly for negative numbers; a plus sign is read too. |
| `RepairQueue.StepKeepsInv` | migrations/generator.go:1044-1075 | Enqueue, dequeue, promote and complete keep the priority/trigger pairing and the partial unique index. |
| `RepairQueue.RunKeepsInv` | internal/repair/queue.go:203-526 | So does every run: emergencies are exactly the emergency-floor jobs, only threshold warnings are in the lowest tier, and at most one live threshold job holds a chunk and trigger. |
| `RepairQueue.EnqueueOutcome` | internal/repair/queue.go:203-272 | A job enters queued, in the tier of its trigger, exactly when its shard count is in range and no live threshold job holds its key. |
| `RepairQueue.DequeueOutcome` | internal/repair/queue.go:275-345 | What is served is a queued job none comes before, marked started; nothing else changes. |
| `RepairQueue.PromoteOutcome` | internal/repair/queue.go:502-526 | A tick raises exactly the queued warnings older than the timeout and changes nothing else. |
| `RepairQueue.CompleteOutcome` | internal/repair/queue.go:416-465 | A started job is closed as what the repair said, for good; one never started stays as it is. |
| `RepairQueue.DequeuedAheadOf` | internal/repair/queue.go:275-345 | What is dequeued while a promoted job waits is an emergency or was created no later. |
| `RepairQueue.PromotedWaitIsBounded` | cmd/microservice/repair_loop.go:47-70 | Once promoted, a job is overtaken by at most the non-emergency jobs then ahead of it, however many are enqueued later. |
| `RepairQueue.StaleWaitIsBounded` | internal/repair/queue.go:502-526 | After one promotion tick past the timeout, a stale warning is overtaken over every further run by at most the non-emergency jobs created no later than it. |
| `RepairQueue.UnpromotedCanBeOvertaken` | internal/repair/queue.go:275-345 | Without promotion a departure enqueued at any later time is served first. |
| `Assignments.LiveShardsAreBounded` | migrations/generator.go:639-657 | Over every run at most TotalShards live real shards stand for any segment (a pigeonhole over the partial unique index). |
| `Assignments.UpdatesAreNeverRefused` | migrations/generator.go:1404-1414 | No UPDATE the program runs can violate a constraint or policy; only an INSERT can be refused. |
| `Assignments.RunIsConsistent` | migrations/generator.go:608-657 | Every run keeps the CHECK, the per-provider uniqueness and one live holder per slot. |
| `Assignments.InsertAcceptedIff` | migrations/generator.go:608-657 | Column by column: the table takes exactly a live row of one of the two kinds, for a pair and a slot not yet taken. |
| `Assignments.PreRegisterAcceptedIff` | internal/repair/executor.go:653-661 | Pre-registering a replacement succeeds exactly when the slot has no live holder and the provider never had a row for the chunk, deleted ones included. |
| `Assignments.AbandonFreesSlot` | internal/repair/executor.go:431-440 | Abandoning a failed candidate frees its slot without touching anyone else's history. |
| `Assignments.FindSurvivingHolders` | cmd/microservice/repair_loop.go:81-136 | The holders are exactly the ACTIVE real holders of the segment minus the excluded provider, with pairwise distinct in-range shard indices; the exclusion list covers every holder and the departed one. |
| `Assignments.RepairRestoresSlot` | internal/repair/executor.go:295-371 | Retiring the departed row, pre-registering and activating a replacement leaves the segment with the same live slots under one new holder and every other row untouched. |
| `Assignments.OwnerDeleteRetires` | internal/api/file.go:502-511 | Deleting a file leaves no live shard in its segments, every row there pending or deleted, and all other rows as they were. |
| `Assignments.DepartureRetiresSynthetic` | internal/repair/queue.go:375-384 | The synthetic rows of a departed provider stay DELETED through every further run if and only if no deletion delivery that loaded them before stages them afterwards, since staging does not look at the status. |
| `Assignments.StagingUndoesDeparture` | internal/vettingchunk/gc.go:184-222 | It happens: a row loaded while ACTIVE, retired by a departure and then staged is PENDING_DELETION again. |
| `Assignments.ResentIffPendingReal` | internal/vettingchunk/gc.go:282-305 | Of the rows no longer live, exactly the real ones awaiting deletion are ever selected for delivery again. |
| `Assignments.UnconfirmedSyntheticIsStuck` | internal/vettingchunk/gc.go:184-222 | A synthetic row left PENDING_DELETION by a delivery that is over, wherever it ended, stays so over every further run until its provider departs, although the comments promise a retry. |
| `Assignments.OneDeliveryIsAll` | internal/vettingchunk/gc.go:184-222 | After one delivery with any number of answered frames, each synthetic chunk is DELETED if some frame confirmed it and otherwise PENDING_DELETION for good. |
| `Assignments.DeliveryOutcome` | internal/vettingchunk/gc.go:309-357 | Cut off after any number of answered frames, a delivery leaves each row it loaded DELETED if confirmed and PENDING_DELETION otherwise. |
| `Assignments.DeliverySparesReal` | internal/vettingchunk/gc.go:184-222 | A deletion of synthetic chunks, however far it gets, leaves every real row alone. |
| `Assignments.OwnerDeliverySparesOthers` | internal/vettingchunk/gc.go:224-280 | A deletion of owner chunks stages nothing and touches only real rows awaiting it. |
| `Assignments.OwnerDeletionOutcome` | internal/vettingchunk/gc.go:238-268 | A real row awaiting deletion becomes DELETED with the first answer that confirms it and is loaded again until then. |
| `Bitmaps.SetBitBits` | cmd/provider/handler_vetting_gc.go:214-222 | Setting one bit of a byte sets that bit and no other. |
| `VettingGC.DeleteChunks` | cmd/provider/handler_vetting_gc.go:213-223 | Bit i of the bitmap is set exactly when delete i failed, padding bits are clear, and the fail count is the population count; the store loses exactly the chunks whose delete succeeded. |
| `VettingGC.RecordedCount` | cmd/provider/handler_vetting_gc.go:213-223 | The population count of such a bitmap is the number of failures. |
| `VettingGC.LengthNeverWraps` | cmd/provider/handler_vetting_gc.go:148-166 | For every admitted count the uint32 length and bitmap-size arithmetic is exact. |
| `VettingGC.RequestRoundTrip` | internal/vettingchunk/gc.go:385-400 | The provider parses back every frame the coordinator can write and takes no byte beyond it. |
| `VettingGC.ReplyRoundTrip` | cmd/provider/handler_vetting_gc.go:257-273 | The coordinator reads back every answer the provider can write, and nothing of what follows. |
| `VettingGC.ReadVettingGCResponse` | internal/vettingchunk/gc.go:404-426 | The coordinator's read consumes exactly the announced frame under any splitting. |
| `VettingGC.SucceededChunkIDs` | internal/vettingchunk/gc.go:430-441 | The ids not marked in the bitmap, in batch order. |
| `VettingGC.BatchConfirmsExactly` | internal/vettingchunk/gc.go:309-354 | Across both binaries the ids marked DELETED are exactly those the provider deleted, and an error is reported exactly when a non-empty batch failed whole. |
| `VettingGC.DeletedIsGone` | cmd/provider/handler_vetting_gc.go:213-223 | A chunk remains in the store exactly when it was there and its delete did not succeed. |
| `VettingGC.FreshIff` | cmd/provider/handler_vetting_gc.go:182-188 | The 64-bit freshness test accepts what lies within the window on the 64-bit circle and the one timestamp half the circle away. |
| `VettingGC.FreshForRealClocks` | cmd/provider/handler_vetting_gc.go:182-188 | With a present-day clock: within the window, or exactly 2^63 milliseconds old. |
| `VettingGC.Handler.ReadRequest` | cmd/provider/handler_vetting_gc.go:138-180 | Reading field by field gives the parse of the waiting bytes, under every splitting; a frame whose last byte arrives with the end of the stream is lost. |
| `VettingGC.Handler.HandleOneFrame` | cmd/provider/handler_vetting_gc.go:111-234 | One frame: authorisation, parse, freshness, key, signature, and only then the delete pass and its reply. |
| `VettingGC.Handler.HandleStream` | cmd/provider/handler_vetting_gc.go:95-103 | The frame loop ends, and its frames form a session. |
| `VettingGC.FrameHandledIff` | cmd/provider/handler_vetting_gc.go:111-234 | A frame is handled in full exactly when it is whole, well-formed and checked, and the stream does not end with its last byte. |
| `VettingGC.SignatureCoversFrame` | cmd/provider/handler_vetting_gc.go:239-260 | Two requests with one signing input list the same chunks, at the same time, for the same peer: no signature can be moved to another chunk list. |
| `VettingGC.SignedFrameIsHandledIff` | internal/vettingchunk/gc.go:309-374 | The frame the coordinator builds and signs is handled in full by an authorised provider exactly when it arrives fresh and is not cut off by the end of the stream. |
| `VettingGC.StatusTrichotomy` | cmd/provider/handler_vetting_gc.go:225-232 | OK exactly when no delete failed, INTERNAL_ERROR exactly when all of a non-empty batch did, the bitmap otherwise. |
| `VettingGC.ParseRefusals` | cmd/provider/handler_vetting_gc.go:138-160 | More than 10000 ids, or a length other than 76 plus 32 per id, is refused, exactly. |
| `VettingGC.FrameDeletesOnlyWhenChecked` | cmd/provider/handler_vetting_gc.go:111-234 | A frame deletes nothing unless it passed every check, and then only what it lists. |
| `VettingGC.EveryDeleteIsChecked` | cmd/provider/handler_vetting_gc.go:95-234 | Over a whole multi-frame stream, whatever left the store was listed in a frame that had passed authorisation, freshness at its own clock and its signature. |
| `VettingGC.StrangersDeleteNothing` | cmd/provider/handler_vetting_gc.go:111-136 | A stream from anyone else changes nothing and ends after one refusal. |
| `Ledger.AppendMovesOne` | migrations/generator.go:926-938 | One append moves exactly one provider by its signed amount, deposits and reversals up, releases and seizures down, and the held figure with it. |
| `Ledger.AppendOutcome` | migrations/generator.go:926-938 | A positive amount under a new key is appended; anything else changes nothing. |
| `Ledger.ViewSumsToHeld` | migrations/generator.go:1582-1590 | However the view's rows are listed they add up to the summary's held figure. |
| `Ledger.ReplayIsHarmless` | internal/payment/ledger.go:67-95 | Running any list of inserts a second time changes nothing. |
| `Ledger.SealedIsFlooredView` | internal/repair/departure.go:381-402 | The departure path's own signed sum equals the view, floored at zero. |
| `Ledger.SeizureEmptiesIff` | internal/repair/departure.go:381-402 | Seizing the sealed balance empties the account exactly when it was not overdrawn, and held falls by that amount. |
| `Ledger.FlooredOwners` | migrations/generator.go:1592-1612 | The floored owner balances never understate, and their sum is exact exactly when no owner is overdrawn. |
| `Ledger.OwnerEntryMoves` | migrations/generator.go:1594-1612 | One entry moves its owner alone: deposits and refunds up, charges and withdrawals down. |
| `Charges.SplitByLargestRemainder` | internal/payment/charge.go:191-231 | The split sums to the cost exactly, gives everyone the floor of the quota or one more, raises only fractional quotas, and raises no one before someone ahead in remainder and id order. |
| `Charges.SplitIsUnique` | internal/payment/charge.go:174-231 | Those properties determine the split. |
| `Charges.LeftoverBound` | internal/payment/charge.go:209-230 | The leftover is between zero and the number of fractional quotas, so the loop never runs past the list. |
| `Charges.RankByRemainder` | internal/payment/charge.go:221-226 | The stable sort ranks by remainder, then provider id. |
| `Charges.ChargeConservedIff` | internal/payment/charge.go:243-286 | After an attempt without failures providers have received exactly the charge if and only if the earlier credits equal what today's split gives the same providers. |
| `Charges.CreditsArePositive` | internal/payment/charge.go:234-286 | An attempt adds only positive shares of this split and keeps what was credited before. |
| `Charges.RetriesConserve` | internal/payment/charge.go:234-286 | While the holders stay the same, any partly failed attempts followed by a clean one credit exactly the cost. |
| `Charges.MovedShardLosesAPaisa` | internal/payment/charge.go:234-286 | With the real splits before and after, a shard that moves between attempts leaves part of the charge unpaid. |
| `Charges.MovedShardPaysTwice` | internal/payment/charge.go:234-286 | It can also make the credits exceed the charge. |
| `NonceVersions.Tracker.Accept` | cmd/provider/handler_audit.go:111-134 | One call updates the mark and accepts exactly by mark and window. |
| `NonceVersions.MarkIsMaximum` | cmd/provider/handler_audit.go:89-134 | The mark is the largest version ever presented and the time of its first presentation. |
| `NonceVersions.RejectionLasts` | cmd/provider/handler_audit.go:111-134 | A rejected nonzero version stays rejected while nothing above the mark arrives. |
| `NonceVersions.NewVersionReopens` | cmd/provider/handler_audit.go:111-134 | A version above the mark makes every retired version acceptable again for exactly the window. |
| `AdminChallenge.Endpoint.NewestOf` | internal/api/audit.go:237-246 | A newest receipt of the pair, or none exactly when there is none. |
| `AdminChallenge.Endpoint.HandleDispatch` | internal/api/audit.go:135-282 | It writes exactly when provider, assignment, segment and deadline lookups pass and the pair is due; the receipt names the file and stale flag of those rows; every 202 carries a newest receipt; 403 means departed and 404 no live assignment, each exactly. |
| `AdminChallenge.AdminReceiptsAreAdmissible` | internal/api/audit.go:156-231 | Over every run with arbitrarily changing tables, each admin receipt was written while its provider existed and had not departed and its assignment was held or under repair, with the file of its segment. |
| `AdminChallenge.DeadlineCovers` | internal/api/audit.go:289-303 | The deadline is the least whole number of milliseconds in which 256 KB can be moved with half as much again to spare. |
| `AdminChallenge.ReplyDeadlineCovers` | internal/api/audit.go:284-303 | Every 202 carries a deadline covering the own throughput of the provider when it has one, and the pool median otherwise. |
| `AdminChallenge.PoolMedianSplits` | internal/api/audit.go:315-326 | The throughput substituted for an unknown one is a true median of the pool samples. |
| `AdminChallenge.RunIsSpaced` | internal/api/audit.go:234-278 | Over every run from any such table, with arbitrary other writers, an admin receipt is at least PollingInterval younger than every earlier one of its pair. |
| `Forecast.ForecastVetting` | cmd/operator/model.go:636-717 | The scan, sort and pick give the estimate of some legal arrangement of the candidates. |
| `Forecast.SortByProgress` | cmd/operator/model.go:703-703 | The sort leaves a permutation with no pair out of order. |
| `Forecast.FractionIsNthLargest` | cmd/operator/model.go:687-717 | For every tie order the fraction is the required-th largest progress by count, at most one, and an estimate is offered exactly when one can be. |
| `Forecast.FractionIgnoresTies` | cmd/operator/model.go:703-717 | Two arrangements give the same fraction. |
| `Forecast.FractionIsMonotone` | cmd/operator/model.go:636-717 | Passes, elapsed time, promotions, new vetting runs and joining providers never lower the fraction; a clock need only be the same while its provider keeps vetting. |
| `Forecast.WaitIsNthShortest` | cmd/operator/model.go:708-717 | When both gates are measured on one scale the ETA is the required-th shortest remaining wait. |
| `Forecast.WaitRightIffOneScale` | cmd/operator/model.go:612-717 | For every fleet the console can hold (distinct providers, a clock for exactly those vetting) and every tie order, the ETA is that wait if and only if VettingMinPasses times AuditPeriodDuration equals VettingMinDuration, or a gate is off, or nothing is required. |
| `Forecast.ShippedProfilesMisreport` | internal/config/profiles.go:43-198 | Neither shipped profile, given in numbers, meets that condition. |
| `Console.Console.ApplyFetchResult` | cmd/operator/model.go:534-569 | One fetch cycle is the fold of the specification: snapshot, clocks, feed and log mark. |
| `Console.Console.TrackVettingStarts` | cmd/operator/model.go:577-602 | Known clocks stay, new ones start now, others are forgotten. |
| `Console.Console.AppendDerivedEvents` | cmd/operator/model.go:767-812 | The feed grows by the derived events, bounded at twenty. |
| `Console.Console.AppendOtpEvents` | cmd/operator/model.go:734-761 | The feed grows by the unseen lines and the mark becomes the log's length. |
| `Console.ProviderChangesAreTold` | cmd/operator/model.go:775-791 | Between two listings the feed tells of exactly the providers that joined and those whose status changed. |
| `Console.RepairChangesAreTold` | cmd/operator/model.go:792-805 | The feed tells of a repair job exactly when its status differs from the last listing, before and after in that order. |
| `Console.AuditActivityIsTold` | cmd/operator/model.go:805-812 | New challenges are told exactly when a known total grew, and by how much. |
| `Console.SnapshotIsLatest` | cmd/operator/model.go:534-569 | After any cycles with arbitrary failures each snapshot field is that endpoint's latest success. |
| `Console.HaveDataIff` | cmd/operator/model.go:534-573 | The console has data exactly from the first cycle in which some endpoint answered. |
| `Console.LatestIsLast` | cmd/operator/model.go:534-569 | Latest is a cycle's own value with only failures after it. |
| `Console.ClocksAreRunStarts` | cmd/operator/model.go:571-602 | The clock keys are the providers VETTING in the carried snapshot and each clock is the first cycle of its current unbroken run. |
| `Console.RunStartIsUnique` | cmd/operator/model.go:571-602 | That cycle is unique. |
| `Console.FeedIsTail` | cmd/operator/model.go:767-775 | The feed is always the last twenty entries of the unbounded history. |
| `Console.HistoryAnnounces` | cmd/operator/model.go:734-761 | The code events of the history are the announced log lines, in order. |
| `Console.ConsoleAnnouncesOnce` | cmd/operator/model.go:734-761 | Over an append-only log read in arbitrary prefixes, each line is announced exactly once and in order if and only if no read shorter than an earlier one is followed by a longer one. |
| `LogTail.AnnouncedOnceIffNoDip` | cmd/operator/otp.go:174-191 | The same of the read-length mark alone; after such a dip strictly more lines are announced than were ever read. |
| `EventFeed.CollapseRepeatedEvents` | cmd/operator/panels.go:627-638 | The collapsed runs expand to the kind and message sequence, have no equal neighbours, and carry each run's latest time. |
| `EventFeed.EncodingIsUnique` | cmd/operator/panels.go:617-638 | Those properties determine the result. |
| `CyclicFields.InitTables` | internal/erasure/rs_internal.go:39-53 | The filled tables are the powers of the generator, wrapped, and their inverse. |
| `CyclicFields.TableMul` | internal/erasure/rs_internal.go:55-60 | A table product is the field product. |
| `CyclicFields.LogArithmeticIsAField` | internal/erasure/rs_internal.go:33-80 | Arithmetic by logarithms over any such generator satisfies the field laws. |
| `GF256.DoubleReduces` | internal/erasure/rs_internal.go:34-53 | Doubling shifts the byte and on overflow adds 0x1d, the reduction by 0x11d. |
| `GF256.OrderOfTwo` | internal/erasure/rs_internal.go:6-18 | 2 has order exactly 255 modulo 0x11d. |
| `GF256.GfIsAField` | internal/erasure/rs_internal.go:33-80 | The codec's byte arithmetic is a field generated by 2. |
| `LinearAlgebra.InvertMatrix` | internal/erasure/rs_internal.go:100-149 | Gauss-Jordan returns an inverse exactly when the matrix is injective, and an error otherwise. |
| `LinearAlgebra.RightInverse` | internal/erasure/rs_internal.go:100-149 | The inverse it returns works on both sides. |
| `LinearAlgebra.SingularWitness` | internal/erasure/rs_internal.go:117-127 | A column without a pivot yields a non-zero vector the matrix sends to zero. |
| `Polynomials.RootsForceZero` | internal/erasure/rs_internal.go:153-163 | A polynomial with as many distinct roots as coefficients is zero. |
| `ReedSolomon.BuildGeneratorMatrix` | internal/erasure/rs_internal.go:164-200 | The generator exists exactly when the first points are distinct, and makes shard i the value at point i of the polynomial through the data. |
| `ReedSolomon.VandermondeEntry` | internal/erasure/rs_internal.go:64-72 | The entry as computed is the power it stands for. |
| `ReedSolomon.Encode` | internal/erasure/rs_internal.go:225-244 | The first shards are the data and each parity shard is its row against the data at every byte. |
| `ReedSolomon.SelectionIsInjective` | internal/erasure/rs_internal.go:286-307 | Any k rows with distinct points determine the data. |
| `ReedSolomon.RepeatedPointIsSingular` | internal/erasure/rs_internal.go:286-307 | A selection with a repeated point has no inverse. |
| `ReedSolomon.Reconstruct` | internal/erasure/rs_internal.go:255-340 | Too few shards are refused; when the picked points are apart the data comes back exactly; otherwise it fails or nothing was missing. |
| `ReedSolomon.EveryPatternApartIff` | internal/erasure/rs_internal.go:11-18 | Every choice of k surviving shards is recoverable if and only if k is 1 or there are at most 255 shards, where the comments promise it for any count. |
| `ReedSolomon.EncodeSegment` | internal/erasure/engine.go:73-95 | A package of exactly the right length is split and encoded; any other is refused. |
| `ReedSolomon.DecodeSegment` | internal/erasure/engine.go:117-150 | From any k surviving shards of any package, that package; every malformed input is refused for its own reason and the inversion never fails. |
| `ReedSolomon.NewEngine` | internal/erasure/engine.go:37-51 | Each profile error is reported exactly when it applies; an engine is built exactly for a consistent profile with 1 to 255 data shards and some parity, and is fully recoverable exactly up to 255 shards. |
| `SegmentPipeline.AontRoundTrip` | internal/crypto/aont.go:104-208 | Opening a package under the same cipher path gives back the segment. |
| `SegmentPipeline.PackageOpens` | internal/crypto/aont.go:168-208 | A package opens to what was encrypted exactly when the canary matches. |
| `SegmentPipeline.MalformedIff` | internal/crypto/aont.go:168-183 | A package is turned away unread exactly when shorter than 64 bytes or not cut into words. |
| `SegmentPipeline.StoreAndRetrieve` | internal/crypto/aont.go:104-208 | Transform, encode, lose all but any k shards, decode and open: the segment comes back. |
| `VLogFile.WriteIsAppend` | internal/storage/vlog.go:85-104 | Cut into windows of one entry each, the file is still the bytes written: a write appends at the end, whatever is already torn. |
| `VLogFile.WindowIsRead` | internal/storage/vlog.go:132-146 | A full-length read at a multiple of the entry size succeeds exactly inside the windows and returns one. |
| `VLogFile.EntryLayout` | internal/storage/vlog.go:25-38 | The entry layout in numbers, field by field. |
| `VLogFile.ReadsBackIffEchoes` | internal/storage/vlog.go:85-146 | Byte for byte: read at the window it starts in, an entry gives its chunk exactly when the chunk repeats the bytes standing before it; always when nothing is torn. |
| `VLogFile.LongTearNeedsOwnId` | internal/storage/vlog.go:85-146 | Behind 36 torn bytes or more, a chunk that reads back contains its own id at a fixed place, as far as there is room for it. |
| `VLogFile.LateTearEchoesIff` | internal/storage/vlog.go:85-146 | Behind an entry torn within its content hash, exactly the chunk of the torn body reads back. |
| `VLogFile.RetryAfterLateTear` | internal/storage/vlog.go:85-146 | So the retry of a chunk torn that late reads back. |
| `ValueLog.Store.AppendChunk` | internal/storage/vlog.go:155-181 | On any disk the entry goes to the end of the file and the index records the head; a clean store stays clean. |
| `ValueLog.Store.LookupChunk` | internal/storage/vlog.go:189-208 | What is returned hashes to the id asked for. |
| `ValueLog.AppendReadsBackIff` | internal/storage/vlog.go:85-208 | On every disk, when an appended chunk can be read back; no other readable window is disturbed. |
| `ValueLog.AppendKeepsClean` | internal/storage/vlog.go:85-104 | On a clean store an append is found under its id and disturbs no other lookup. |
| `ValueLog.DeleteKeepsSound` | internal/storage/vlog.go:216-218 | A delete hides exactly that chunk. |
| `ValueLog.Store.RecoverFromCrash` | internal/storage/vlog.go:230-288 | The scan stops at the first window failing its content hash, leaves the rescanned index and puts the head there. |
| `ValueLog.RestartHoldsThePrefix` | internal/storage/vlog.go:230-288 | On every disk a restart keeps indexed chunks and brings back exactly the ids heading a window before that point. |
| `ValueLog.RestartHoldsTheLog` | internal/storage/vlog.go:230-288 | On a sound disk the store then holds exactly the chunks in the log, whatever was deleted before. |
| `ValueLog.DeletionOutlivesRestartIff` | internal/storage/vlog.go:211-218 | On every disk a deletion outlives a restart exactly when no window the scan reaches is headed by the chunk. |
| `ValueLog.TornTailBlocksIff` | internal/storage/vlog.go:223-288 | After recovery from a torn tail the next upload reads back exactly when it echoes the torn bytes, and blocks every later scan at the tear unless the straddling window passes its hash check. |
| `ValueLog.OneTornByte` | internal/storage/vlog.go:223-288 | Behind a single torn byte the chunk of zeros, and no other, reads back. |
| `ValueLog.UploadsAfterTear` | internal/storage/vlog.go:85-208 | Of any number of uploads after a tear, each reads back exactly when it echoes the bytes before its own entry; the torn length never goes away. |
| `ValueLog.BlockedForever` | internal/storage/vlog.go:220-288 | Once a scan stops early it stops there after every further run of uploads, crashes, deletions and restarts, and right after a restart only the chunk that window already spells could be stored. |
| `ValueLog.Store.RunGC` | internal/storage/vlog.go:301-403 | A finished compaction leaves the compacted log; one cut short by cancellation or a write error leaves the old log under the moved index. |
| `ValueLog.CompactedLookup` | internal/storage/vlog.go:301-403 | What every lookup gives after a compaction of any disk: hashes are not checked, so an id gets the last window it heads, right or wrong. |
| `ValueLog.CompactionHarmlessIff` | internal/storage/vlog.go:301-403 | With an index that points right, compaction loses no chunk exactly when no last window of a live id is spoiled. |
| `ValueLog.CompactionKeepsChunks` | internal/storage/vlog.go:301-403 | On a sound disk, so before any upload after a tear, it keeps every chunk, drops deleted ones for good even across restarts, and clears a torn tail. |
| `ValueLog.TornDuplicateIsLost` | internal/storage/vlog.go:301-403 | A second write of a stored chunk cut off after its id, a restart and one more upload make the next compaction lose the stored chunk, barring a hash accident. |
| `ValueLog.CancelHarmlessIff` | internal/storage/vlog.go:329-372 | For every sound disk, chunks logged any number of times included, cancelling loses no chunk if and only if every last copy would land on a window headed by the same id; the comment promises no data loss. |
| `ValueLog.CancelHarmlessIffNoDead` | internal/storage/vlog.go:329-372 | With each chunk logged once: if and only if no deleted entry lies before a live one among those copied. |
| `CompactionRace.Interleavings` | internal/storage/vlog.go:301-403 | Who may step when: one writer, one scan that stops for good at the end of the file, deletions at any time; a cancelled scan leaves the disk as it is. |
| `CompactionRace.RunKeepsInv` | internal/storage/store.go:163-172 | Over every interleaving of the scan, the writer between log and index, and deletions, while no write fails half way, the log and the copy stay whole and every index entry is accounted for. |
| `CompactionRace.AnyCompactionOutcome` | internal/storage/store.go:163-172 | Over every interleaving from any disk, failed writes included: what a finished compaction leaves each id with, and when a moved one is readable. |
| `CompactionRace.CompactionOutcome` | internal/storage/store.go:163-172 | When the copy is renamed into place a chunk is readable exactly when the scan wrote its index entry last or the old offset happens to hold it; one that was not in the snapshot is lost, where the comment asks for no coordination with AppendChunk. |
| `CompactionRace.UploadIsLost` | internal/storage/store.go:163-172 | It happens to every new chunk uploaded right after the snapshot. |
| `CompactionRace.LatePutReadableIff` | internal/storage/vlog.go:155-181 | A write before the rename whose index entry comes after it is readable exactly when the copy at its old slot is of the same chunk. |
| `CompactionRace.UntouchedSurvives` | internal/storage/vlog.go:301-403 | A stored chunk nobody re-uploads or deletes meanwhile survives. |
| `CompactionRace.DeletionUndoneIff` | internal/storage/vlog.go:349-364 | A deletion during a compaction is undone exactly when the snapshot held the chunk and the scan then meets an entry of it. |
| `CompactionRace.DeletionComesBack` | internal/storage/vlog.go:349-364 | It happens to every stored chunk deleted right after the snapshot. |
| `CompactionRace.QuietCompaction` | internal/storage/vlog.go:301-403 | With writer and deleters idle the interleaved scan is the one-step compaction. |

## Left out

- HTTP routing, JSON bodies, flag parsing, terminal styling and scrolling: they would only add easy members.
- Ed25519, SHA-256, ChaCha20, AES, HMAC and Argon2 internals: arbitrary functions; collision-freedom is assumed only where a lemma names it.
- Shutdown paths: closing the write channel and context cancellation in the middle of a job, other than cancelling a compaction.
- The role-change and superuser paths around the receipt policies: only the application and collector roles are modelled.
- `SKIP LOCKED` concurrency of dequeues: each queue operation is one transaction.
- Concurrent admin challenge requests: the endpoint reads and then writes with no transaction, so its statement is sequential, and one request sees one state of the tables.
- Compactions during uploads are modelled on the value log alone, since the daemon starts none; the upload protocol and the compaction are not interleaved in one state machine.
- Rounding of floating-point scores, fractions and deadlines: exact reals are used.
- Overflow of 64-bit money arithmetic: amounts are unbounded integers.
- Console.Console.AppendDerivedEvents: messages are kept as the values their text is built from, so two different events that print alike are not identified before collapsing.
- Console.Console.TrackVettingStarts: deleting while ranging over the map is one map difference; the iteration order is not modelled.
- VettingGC.Handler.HandleStream: read deadlines and input draining are not modelled; a deadline acts like the end of the stream.
- Charges.SplitByLargestRemainder: the holders arrive already listed by ascending provider id, which the first sort establishes.
- CyclicFields.InitTables: the tables are a sequence and a map rather than fixed arrays.
- LinearAlgebra.InvertMatrix: the inner loops over one row are whole-vector operations.
- ReedSolomon.Encode: shards are values, so the aliasing of the data shards with the caller's package is not modelled.
- SegmentPipeline.AontRoundTrip: decoding under the other cipher path is not covered, since nothing is assumed about the key streams.
- ValueLog.TornTailBlocksIff: whether a straddling window passes its hash check stays a condition, since nothing is assumed about the hash.
- CompactionRace.CompactionOutcome: the step called Rename is the writer's change of file handle, which is when the new file takes over for reads and writes; handle and head change together, and two compactions do not overlap.
- The Badger storage backend, the DHT, relays, peer identity and transport.
- Provider selection, ASN caps, scoring formulas other than the streak and the penalty, and the monthly release multiplier.
