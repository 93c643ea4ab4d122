# Mining firmware: work pipeline, scheduler, extractors and codecs

A Dafny model of the Bitcoin-miner firmware's hard core and proofs about it. Code that changes
fields and buffers in place is modelled by classes and methods over arrays, proved against
specification functions; the main results are lemmas about those functions and about whole runs.

- **Work pipeline** (`PipelineMachine`, `PipelineSafety`, `PipelineLimits`, `PipelineEffects`,
  `PipelineDelivery`, `PipelineWrap`, `WorkPipeline`). Three receivers, the job task, resets, pause
  and resume are one state machine whose actions are the points where shared state is touched.
  Enqueueing is split into "read the epoch", "read the pool epoch", "read the session" and "push",
  so stale items do enter the queue; resets are split into bump, clear, marker and release, and the
  queue rotations may lose or reorder anything. Safety is proved for every run of every length. Each
  function of the source is also a method of a class that, called while nothing else is in progress,
  ends in a state that a run leads to, with its whole effect stated.
- **ASIC job table** (`AsicJobs`): the pool of 32 jobs, slot ownership and the rotation of job ids.
- **Pool scheduler** (`FrameQuotas`, `FrameDelivery`, `FrameFairness`, `PoolSliceScheduler`):
  apportionment of 80 jobs by largest remainder, chunks of at most 12, smooth weighted round robin.
- **Extractors and rings** (`OtaInstall`, `OtaImages`, `LineFraming`, `LogRing`, `JsonWriter`):
  chunk-by-chunk code against a plain byte sequence.
- **Codecs** (`Positional`, `Base58`, `LegacyText`, `BitRegrouping`, `Bech32Checksum`,
  `Bech32Address`, `Bech32Vector`, `PayoutWallet`, `CoinbaseScan`, `Crc`, `CrcFrames`) and
  **arithmetic** (`Pll`, `Tuning`), and the **share accounts** (`Shares`, `ShareOwners`).

Some properties one would expect are false of the code. Each is kept as the code has it, with the
exact condition and a witness:

| what fails | exact condition | witness |
|---|---|---|
| work held across 2^32 resets is accepted again, because epochs are compared as 32-bit words | `PipelineSafety.TableCoherence` | `PipelineWrap.StaleAfterWrap` |
| a subscribe reply to a session that is already ready, a second one or one behind `mining.set_extranonce`, changes the extranonce under live work | `PipelineSafety.SubscribeReplyIff` | `PipelineLimits.SecondReply` |
| an application that starts before the chunk completing the partition table depends on the chunks | `OtaInstall.ChunksMatterIff` | `OtaInstall.ChunksMatterExample` |
| the 64-bit product of the payout share overflows | `CoinbaseScan.ShareIsRightIff` | `CoinbaseScan.ShareOverflows` |
| a clock that rounds to the new setting from above gets no frequency command before the voltage is lowered | `Tuning.SafeIff` | `Tuning.SinksExample` |
| a slow-path reply with id 0 matches an empty slot | `Shares.PhantomIff` | `Shares.PhantomShare` |
| where a string does not fit, the two JSON writers leave different bytes | `JsonWriter.FailuresDifferIff` | `JsonWriter.FailureExample` |
| what a lost network or a switch leaves in a line buffer, complete lines included, is handed to the next connection | `LineFraming.StaleRemainderIff` | `LineFraming.TwoConnections`, `LineFraming.StaleExamples` |
| a read of the log from 0 does not flag what the ring has lost | `LogRing.ZeroNeverFlagsTheRing` | `LogRing.FirstPageIsNotFlagged` |

Some limits of single functions lie outside what their present callers and the configuration give
them: `FrameQuotas.StarvedIff` and `FrameQuotas.OvershootsIff` (three weighted pools; at most two are
configured, with weights up to 99), `Pll.RangeAgreesIff` and `Pll.SearchAt256` (the caller searches
feedback dividers 160 to 239), and `LogRing.LongAppendIsNotFlagged` (appends are at most 511 bytes).

## Model

| member | source | states |
|---|---|---|
| PipelineSafety.StepKeepsInv | main/stratum_minimal.c:1927-2069 | every action of a receiver, a reset, a queue rotation, the job task, pause, resume or a session change keeps the invariant |
| PipelineSafety.RunKeepsInv | main/stratum_minimal.c:1927-2069 | every interleaving of any length keeps it |
| PipelineSafety.EpochSafety | main/stratum_minimal.c:4240-4284 | in every reachable state with the reset lock free, each job in the ASIC table was built from work whose global and pool epoch equal the current ones |
| PipelineSafety.PauseSafety | main/stratum_minimal.c:2197-2232 | from the return of a pause to the next resume the ASIC table is empty |
| PipelineSafety.LiveWorkCoherence | main/stratum_minimal.c:3066-3102 | at a handler boundary every current item, wherever it is, carries its session's extranonce and version mask and no lower difficulty, and a disconnected pool has none |
| PipelineSafety.TableCoherence | main/stratum_minimal.c:3160-3238 | with the reset lock free, what the ASIC works on is current exactly when fewer than 2^32 resets lie since its capture, and then it agrees with its session |
| PipelineSafety.WordsAreExactIff | main/stratum_minimal.c:4350-4400 | equal 32-bit epochs are equal counters exactly while fewer than 2^32 resets lie between |
| PipelineSafety.SubscribeReplyIff | main/stratum_minimal.c:3288-3304 | a subscribe reply keeps current work coherent exactly when the pool has none or the extranonce does not change |
| PipelineWrap.StaleAfterWrap | main/stratum_minimal.c:2006-2030 | from start-up a run, with all its reset markers, leads to work in the ASIC table that looks current and is 2^32 resets old |
| PipelineLimits.SecondReply | main/stratum_minimal.c:3288-3304 | from start-up a run leads to held live work that a second subscribe reply puts at odds with its session |
| PipelineLimits.ReachableLeads | main/stratum_minimal.c:4657-4730 | calls one after another stay within the runs of the machine |
| PipelineLimits.DeliveryIsPossible | main/stratum_minimal.c:4175-4284 | from start-up a run carries a notification into an ASIC slot |
| PipelineEffects.OtherPoolsHas | main/stratum_minimal.c:1939-1960 | draining for a pool loses exactly what it drops |
| PipelineEffects.OldestIsFirst | main/stratum_minimal.c:1962-1986 | making room loses exactly the first entry that gives way |
| PipelineEffects.RotationLeads | main/stratum_minimal.c:1939-1986 | a full rotation that keeps any subset of the queue is a run of the machine |
| PipelineEffects.ResetAllLeads | main/stratum_minimal.c:2006-2030 | the whole effect of a global reset is reached by a run |
| PipelineEffects.ResetPoolLeads | main/stratum_minimal.c:2032-2058 | so is the effect of a pool reset |
| PipelineEffects.ResetRetiresPool | main/stratum_minimal.c:2060-2069 | after a reset for a pool none of its earlier work is current any more |
| PipelineEffects.EnqueueLeads | main/stratum_minimal.c:3160-3238 | the effect of an undisturbed enqueue, with room made when the queue is full, is reached by a run |
| PipelineEffects.SetExtranonceLeads | main/stratum_minimal.c:3364-3396 | reset first, new extranonce after, is reached by a run |
| PipelineEffects.DifficultyLeads | main/stratum_minimal.c:757-778 | a raised difficulty is followed by a reset, a lowered one is not |
| PipelineEffects.VersionMaskLeads | main/stratum_minimal.c:3066-3102 | a changed mask is followed by a reset, an unusable one resets and changes nothing |
| PipelineEffects.DisconnectLeads | main/stratum_minimal.c:1874-1910 | a disconnect closes the session and resets its work |
| PipelineDelivery.DrainSparesOthers | main/stratum_minimal.c:1939-1960 | draining for a pool takes its own messages and the global markers; every other pool's messages stay, in their order |
| PipelineDelivery.ResetSparesQueue | main/stratum_minimal.c:2032-2058 | after a pool's reset the others' messages are what they were, and of its own only the new marker is queued, or nothing when the others fill the queue |
| PipelineDelivery.ResetSparesWork | main/stratum_minimal.c:2032-2058 | after a pool's reset the others' work is held where it was and as current as it was, and none of its own is queued or in the table |
| PipelineDelivery.RoomSparesOthers | main/stratum_minimal.c:1962-1986 | making room loses the pool's own oldest message, or nothing |
| PipelineDelivery.EnqueueSparesOthers | main/stratum_minimal.c:3160-3238 | work with the session's own values goes last in the queue exactly when the session can provide it and there is room, at no other pool's cost |
| PipelineDelivery.DifficultyCosts | main/stratum_minimal.c:757-778 | a difficulty that is no raise changes nothing but the session's difficulty; a raise leaves none of the pool's work current |
| PipelineDelivery.VersionMaskCosts | main/stratum_minimal.c:3061-3102 | a mask that changes nothing costs no work, any other leaves none of the pool's current, and an unusable one is not taken |
| PipelineDelivery.ReplyReadies | main/stratum_minimal.c:3024-3060 | a subscribe reply readies a pool exactly with an extranonce 2 of 1 to 32 bytes and a prefix of at most 32, and changes nothing otherwise |
| PipelineDelivery.LastTakenIsHeld | main/stratum_minimal.c:4324-4400 | when the job task has taken all that is queued it holds the work queued last, if that is current |
| PipelineDelivery.NotificationDelivers | main/stratum_minimal.c:4175-4400 | from every state at rest, paused or not: resume, enqueue, take and send put the pool's new work, with its session's values, in the slot |
| WorkPipeline.WorkPipeline.constructor | main/stratum_minimal.c:4988-5079 | start-up is an initial state of the machine |
| WorkPipeline.WorkPipeline.ResetWorkState | main/stratum_minimal.c:2006-2030 | every pool's and the global epoch bumped, table and queue emptied, one marker queued; a run leads there |
| WorkPipeline.WorkPipeline.ResetPoolOrSingle | main/stratum_minimal.c:2032-2069 | the same for one pool, the other pools' messages untouched; pool 0 alone resets everything |
| WorkPipeline.WorkPipeline.DrainWorkQueueFor | main/stratum_minimal.c:1939-1960 | the rotation leaves the other pools' messages in their order, none of the pool's own and no global marker |
| WorkPipeline.WorkPipeline.DropOneQueuedFor | main/stratum_minimal.c:1962-1986 | the rotation loses the pool's own oldest message, and reports so, or nothing when it has none |
| WorkPipeline.WorkPipeline.EnqueueWork | main/stratum_minimal.c:3160-3238 | what enters the queue, with which captured values, and that nothing does for a disabled pool or without memory for the extranonce; a run leads there |
| WorkPipeline.WorkPipeline.TakeIncoming | main/stratum_minimal.c:4324-4400 | sync, marker or acceptance by epoch; a run leads there |
| WorkPipeline.WorkPipeline.GenerateAndSendWork | main/stratum_minimal.c:4175-4284 | a job is sent exactly when it can be built, its epochs are current and nothing is paused; a run leads there |
| WorkPipeline.WorkPipeline.PauseWork | main/stratum_minimal.c:2197-2214 | paused and the table emptied; a run leads there |
| WorkPipeline.WorkPipeline.ResumeWork | main/stratum_minimal.c:2216-2232 | the table emptied, then open; a run leads there |
| WorkPipeline.WorkPipeline.UpdateVersionMask | main/stratum_minimal.c:3061-3102 | mask change and reset together, an unusable mask disables the pool; a run leads there |
| WorkPipeline.WorkPipeline.SetDifficulty | main/stratum_minimal.c:757-778 | reports a raise exactly when the difficulty rises; a run leads there |
| WorkPipeline.WorkPipeline.SetExtranonce | main/stratum_minimal.c:3364-3396 | reset, then the new extranonce; a run leads there |
| WorkPipeline.WorkPipeline.HandleSubscribeReply | main/stratum_minimal.c:3288-3304 | any reply sets the values; one before the session is ready is a step of a run, a later one keeps live work coherent exactly when nothing changes or there is none |
| WorkPipeline.WorkPipeline.SetConnected | main/stratum_minimal.c:1847-1872 | connected, not set up and no longer disabled; a run leads there |
| WorkPipeline.WorkPipeline.SetDisconnected | main/stratum_minimal.c:1874-1910 | closed, and its work reset; a run leads there |
| WorkPipeline.CallsStaySafe | main/stratum_minimal.c:4240-4284 | after such a call from a reachable state every job in the table is current, and a returned pause has left it empty |
| AsicJobs.AtMostSeventeenInUse | main/bm1370.c:361-384 | at most 16 slots and the job under construction use pool entries |
| AsicJobs.FreeEntryExists | main/mining.c:45-64 | a pool entry is always free for the next job, so the heap is never asked |
| AsicJobs.SendsRotate | main/bm1370.c:367-369 | of all sends of a table, two used the same slot exactly when they are a multiple of 16 apart |
| AsicJobs.JobIdRoundTrip | main/bm1370.c:427-435 | a result decodes to the slot its job was sent in, for every small core |
| AsicJobs.JobTable.AllocJob | main/mining.c:45-64 | the first free entry is taken and never nothing |
| AsicJobs.JobTable.FreeJob | main/mining.c:66-88 | a used entry is freed |
| AsicJobs.JobTable.SendWork | main/bm1370.c:361-384 | the job owns the next slot, the job there before is freed once, ownership is kept |
| AsicJobs.JobTable.ClearJobs | main/bitaxe_hw.c:2063-2078 | all slots empty and only the job under construction still in use |
| AsicJobs.JobTable.ClearPoolJobs | main/bitaxe_hw.c:2080-2097 | exactly the pool's slots are emptied and their entries freed |
| FrameQuotas.QuotasFillTheFrame | main/stratum_minimal.c:4500-4570 | quotas sum to exactly 80 and the loop that takes jobs back never runs |
| FrameQuotas.EveryPoolServedIff | main/stratum_minimal.c:4526-4546 | every weighted pool gets a job exactly when the floors leave enough for those rounded to nothing |
| FrameQuotas.EveryPoolServed | main/stratum_minimal.c:4526-4546 | with weights up to 99 every weighted pool gets a job |
| FrameQuotas.StarvedIff | main/stratum_minimal.c:4526-4546 | with three weighted pools somebody gets no job exactly when the heaviest weighs at least 79 times as much as the others together |
| FrameQuotas.HeavyWeightStarves | main/stratum_minimal.c:4526-4546 | weights 200, 1, 1, beyond the configured limit, starve the last pool |
| FrameQuotas.TwoPoolsRound | main/stratum_minimal.c:4500-4570 | with two active pools each quota is the floor or ceiling of its share |
| FrameQuotas.LargestRemaindersWin | main/stratum_minimal.c:4546-4570 | when no share rounds to nothing each pool gets at most one job above its share rounded down, and those whose shares lost more get it first, the earlier pool on a tie |
| FrameQuotas.OvershootsIff | main/stratum_minimal.c:4500-4570 | a quota is neither its share rounded down nor rounded up exactly when rounding down leaves two jobs, one pool rounds to nothing, and that pool has the largest remainder |
| FrameQuotas.ThreePoolsOvershoot | main/stratum_minimal.c:4500-4570 | weights 1, 40, 40 give such a quota |
| FrameDelivery.ServedKeepsInv | main/stratum_minimal.c:4583-4641 | each call hands out 1 to 12 jobs within one of the pool's smallest slice and keeps the frame's invariant; clamp and failure branch are not reached |
| FrameDelivery.PendingIff | main/stratum_minimal.c:4572-4581 | a pool has chunks exactly while it has jobs |
| FrameDelivery.RunDelivers | main/stratum_minimal.c:4583-4641 | a run from any frame hands each pool exactly what it had left |
| FrameDelivery.RunSizes | main/stratum_minimal.c:4583-4641 | no slice of a run leaves the promised sizes |
| FrameDelivery.FrameDelivery | main/stratum_minimal.c:4500-4641 | from a fresh frame each pool gets exactly its quota, 80 jobs in all, in slices of 1 to 12 that differ by at most one, and in as few as that takes |
| FrameFairness.ServedStaysFair | main/stratum_minimal.c:4599-4624 | a turn keeps every credit within two thirds of the frame's slices below zero and a bound above, and a pool passed over had no more than five sixths of them |
| FrameFairness.ServedCharges | main/stratum_minimal.c:4599-4638 | a pool with the most credit is served and only it pays: its jobs, one slice, and credit worth all slices left; each pool is credited its own slices left |
| FrameFairness.NobodyWaitsLong | main/stratum_minimal.c:4583-4641 | in a frame of t slices a pool with c left after k turns is passed over at most (3t + 1 - k) / (2c + 1) times in a row, and at the start at most (5t + 3) / (6c + 3) times |
| PoolSliceScheduler.PoolSliceScheduler.BuildFrame | main/stratum_minimal.c:4500-4570 | the loops compute the specified frame |
| PoolSliceScheduler.PoolSliceScheduler.Credited | main/stratum_minimal.c:4595-4617 | credits and the pool with the largest one |
| PoolSliceScheduler.PoolSliceScheduler.Next | main/stratum_minimal.c:4583-4641 | one call serves the next slice of the current or rebuilt frame and charges only the pool it returns, and fails exactly for a total of zero |
| OtaInstall.FactoryAppRange | main/wifi_http.c:554-579 | the loop finds the table's first application entry |
| OtaInstall.ChunksDoNotMatter | main/wifi_http.c:2944-3080 | with the application behind the table and a slot of at least 0x8C00 bytes the chunks do not matter |
| OtaInstall.ChunksMatterIff | main/wifi_http.c:2992-3030 | otherwise they do exactly when the application starts before the chunk that completed the table, has bytes left, and is not refused in the same way whole and cut |
| OtaInstall.ChunksMatterExample | main/wifi_http.c:2992-3030 | one upload, two ways to arrive: one installs the application, the other is refused |
| OtaInstall.CompletingStartIsLate | main/wifi_http.c:2958-2986 | a full buffer keeps the start of the completing chunk within 4096 bytes of the table's end |
| OtaInstall.Recognise | main/wifi_http.c:2987-3030 | header and table bytes settle the image, and a table that turns up aborts what was written |
| OtaInstall.WriteChunk | main/wifi_http.c:3033-3068 | a chunk's part of the image is appended, or the upload fails |
| OtaInstall.InstallHandler | main/wifi_http.c:2944-3080 | for every split into chunks the slot holds the image from the completing chunk on, through abort and restart, and an upload that breaks off is never installed |
| OtaImages.RangeFromIff | main/wifi_http.c:548-579 | the walk finds a range exactly when the table starts with entries of other kinds and then one of an application in it, numbers lowest byte first |
| OtaImages.TableReadsBack | main/wifi_http.c:548-579 | reading undoes a reference writer of tables: any entries of other kinds, then an application at any offset and of any size up to 2^32 - 1 |
| OtaImages.InstalledIff | main/wifi_http.c:2944-3080 | chunks aside, what is installed is exactly the application the table names, as far as the upload goes, or the whole upload without such a table, if it has the magic and fits |
| OtaImages.RefusedIff | main/wifi_http.c:2987-3068 | with such a table: exactly when the upload is refused, and as what |
| OtaImages.RefusedWithoutApp | main/wifi_http.c:2987-3068 | the same without one |
| LineFraming.LinesOfBoth | main/stratum_minimal.c:2589-2649 | cutting a part and going on from its rest cuts the whole: chunks do not matter |
| LineFraming.StaleRemainderIff | main/stratum_minimal.c:2611-2621 | any remainder, with or without complete lines, leaves the next connection's lines alone exactly when it is empty, no newline stands in it or behind it, or it is a lone carriage return before an empty line |
| LineFraming.ShortLinesFit | main/stratum_minimal.c:2553-2555 | lines of at most 15361 bytes never overrun the buffer, whatever the chunks |
| LineFraming.LineBuffer.Reserve | main/stratum_minimal.c:2548-2575 | the buffer grows to hold what is needed, contents unchanged, with its exact errors |
| LineFraming.LineBuffer.Receive | main/stratum_minimal.c:2577-2663 | the line handed out and all bytes behind it, the outcomes that empty the buffer and those that keep it |
| LineFraming.LineBuffer.Consume | main/stratum_minimal.c:2665-2680 | what is left is what stood behind the consumed bytes, terminated |
| LineFraming.LineBuffer.Connection | main/stratum_minimal.c:4083-4102 | over a connection the lines are the newline split of the bytes received and the buffer is what stands behind them, also where the connection ends between two lines |
| LineFraming.TwoConnections | main/stratum_minimal.c:4083-4102 | the second connection hands out the lines of what the first left behind and of what it received |
| LineFraming.StaleExamples | main/stratum_minimal.c:4083-4102 | a partial and a complete line left behind, and what becomes of them |
| LogRing.WrittenHolds | main/m45_log_buffer.c:61-88 | after the two copies cell k mod 16384 holds stream byte k for the last 16384 bytes |
| LogRing.CopiedIsSuffix | main/m45_log_buffer.c:199-255 | each read is a suffix of the stream within ring and room |
| LogRing.TruncatedIff | main/m45_log_buffer.c:221-238 | from a position already passed, the flag says exactly that bytes are missing |
| LogRing.ZeroNeverFlagsTheRing | main/m45_log_buffer.c:223-225 | from 0 the flag tells of the room alone |
| LogRing.FirstPageIsNotFlagged | main/wifi_http.c:3285-3303 | the log page's read from 0 of a stream longer than the ring gets the ring's bytes and no flag |
| LogRing.AheadGetsNothing | main/m45_log_buffer.c:226-228 | a position not reached yet gets nothing and no flag |
| LogRing.ChainedReadsJoin | main/m45_log_buffer.c:199-255 | reads chained through the next position without a flag join to the stream with no gap or repeat |
| LogRing.LongAppendIsNotFlagged | main/m45_log_buffer.c:67-70 | an append longer than the ring loses its head and no chained read is told |
| LogRing.LogBuffer.AppendBytes | main/m45_log_buffer.c:61-88 | the stream grows by the kept bytes and the ring still shows its end |
| LogRing.LogBuffer.CopySince | main/m45_log_buffer.c:199-255 | text, 64-bit next position and flag as specified however long the log has grown, terminator within bounds |
| LogRing.LogBuffer.Release | main/m45_log_buffer.c:23-45 | nothing is released before its time |
| LogRing.LogBuffer.KeepActive | main/m45_log_buffer.c:128-161 | a live ring keeps its stream, a missing one is allocated if there is memory |
| JsonWriter.WritersAgree | main/stratum_minimal.c:2443-2539 | both writers succeed exactly when the JSON form and a terminator fit, and write the same |
| JsonWriter.FailuresDifferIff | main/stratum_minimal.c:2443-2539 | on failure they leave different bytes exactly when nothing needs an escape, three cells are left and the text does not fit |
| JsonWriter.FailureExample | main/stratum_minimal.c:2443-2539 | two characters and three cells: the quote alone, or the quote and one character |
| JsonWriter.QuotedReadsBack | main/stratum_minimal.c:2472-2539 | unescaping (section 7 of RFC 8259) returns every text and takes exactly what was written |
| JsonWriter.EscapeIsShortest | main/stratum_minimal.c:2472-2539 | no escape that is read as the same character is shorter than the one written |
| JsonWriter.SpanReadsBackIff | main/stratum_minimal.c:3440-3463 | the span reader takes a written text back exactly when nothing in it was escaped |
| JsonWriter.SkipsWhiteSpace | main/stratum_minimal.c:3440-3463 | the reader skips the white space of section 2 of RFC 8259 in front of a string, all of it and nothing else |
| JsonWriter.ParseStringSpan | main/stratum_minimal.c:3440-3463 | the loop finds the specified span and the cursor behind it |
| JsonWriter.JsonWriter.Append | main/stratum_minimal.c:2397-2430 | the text and a terminator are put down exactly when they fit, nothing else changes |
| JsonWriter.JsonWriter.AppendJsonString | main/stratum_minimal.c:2472-2539 | the cells changed are exactly those of the pieces that fit |
| JsonWriter.JsonWriter.AppendJsonStringFast | main/stratum_minimal.c:2443-2464 | the same for the fast writer's pieces, with its fall back to escaping |
| Bech32Checksum.PolymodStep | main/stratum_payout.c:142-155 | the loop over the five generators computes one register step |
| Bech32Checksum.StepInjective | main/stratum_payout.c:142-155 | different 30-bit states stay different under the same symbol |
| Bech32Checksum.StepInjectiveInSymbol | main/stratum_payout.c:142-155 | different symbols give different states |
| Bech32Checksum.SingleErrorDetected | main/stratum_payout.c:142-155 | one changed symbol changes the final state, at any length |
| Bech32Checksum.CheckSymbolsClose | main/stratum_payout.c:234-275 | for every state and constant the six check symbols close the string (BIP 173, BIP 350) |
| Bech32Checksum.CheckSymbolsUnique | main/stratum_payout.c:142-155 | they are the only six symbols that do |
| BitRegrouping.ConvertBits | main/stratum_payout.c:157-192 | the loops with the wrapping 32-bit accumulator compute the regrouping of the input's bits, and refuse exactly for symbols too wide, too little room, or five or more or non-zero bits left over |
| BitRegrouping.PadThenRegroup | main/stratum_payout.c:157-192 | regrouping 5 to 8 undoes padded regrouping 8 to 5 for all byte strings |
| BitRegrouping.RegroupThenPad | main/stratum_payout.c:157-192 | padded regrouping 8 to 5 undoes regrouping 5 to 8: the bytes come from no other symbols |
| Bech32Address.DecodeWitness | main/stratum_payout.c:194-276 | the passes accept and return exactly what the address stands for |
| Bech32Address.DecodeUndoesEncode | main/stratum_payout.c:194-276 | decoding undoes a reference encoder for every network part, version and program |
| Bech32Address.EncodeUndoesDecode | main/stratum_payout.c:194-276 | in lower case, every address the decoder takes is the encoding of what it gives |
| Bech32Address.DecodedIff | main/stratum_payout.c:194-276 | the texts that decode to a version and program are exactly its two networks' addresses, in small letters or in capitals |
| Bech32Checksum.DifferenceMoves | main/stratum_payout.c:142-155 | the difference of two states moves by zero steps under the same symbols |
| Bech32Checksum.ConstantsApart | main/stratum_payout.c:264-274 | no difference of two symbols moves to the difference of the two constants within an address's length |
| Bech32Address.SingleErrorRejected | main/stratum_payout.c:194-276 | one changed character, wherever it stands, makes a valid address invalid |
| Bech32Vector.KnownAddress | main/stratum_payout.c:194-276 | the test vector BC1SW50QGDZ25J of BIP 350 decodes to version 16 and 751e |
| Base58.MultiplyAdd | main/stratum_payout.c:83-131 | the inner loop multiplies the number by 58 and adds the digit, and its carry fits one byte |
| Base58.ReadNumber | main/stratum_payout.c:83-131 | after each character the bytes are the number of the prefix |
| Base58.DecodeRaw | main/stratum_payout.c:83-131 | a zero byte per leading '1', then the number, within 64 bytes |
| Base58.DecodeChecked | main/stratum_payout.c:83-131 | accepted exactly when the last four bytes are the start of the checksum |
| Base58.DecodeUndoesEncode | main/stratum_payout.c:83-131 | decoding undoes a reference encoder for all byte strings of 5 to 64 bytes |
| Base58.EncodeUndoesDecode | main/stratum_payout.c:83-131 | every text the decoder takes is the encoding of the bytes it gives |
| CoinbaseScan.CoinbaseReader.ReadBytes | main/stratum_payout.c:20-33 | reads stay in bounds |
| CoinbaseScan.CoinbaseReader.ReadVarint | main/stratum_payout.c:50-73 | the little-endian number and the offset behind it |
| CoinbaseScan.ScanOutputs | main/stratum_payout.c:341-405 | on any bytes the loops find what the grammar gives, with 64-bit sums |
| CoinbaseScan.ScanReads | main/stratum_payout.c:341-405 | for every transaction of 1-8 inputs and 1-64 outputs, with or without marker and flag (BIP 144), the scan returns the total and the wallet's sum modulo 2^64, and refuses exactly for a zero total |
| CoinbaseScan.ShareRounds | main/stratum_payout.c:434-440 | without overflow the share is rounded to the nearest hundredth of a percent and at most 10000 |
| CoinbaseScan.ShareIsRightIff | main/stratum_payout.c:434-440 | the share is the true one exactly when product and rounding term fit 64 bits; even otherwise it is at most 10000, and then never enough |
| CoinbaseScan.ShareOverflows | main/stratum_payout.c:434-435 | a wallet paid everything, 19 million coins, is told a share below the minimum |
| CoinbaseScan.Evaluate | main/stratum_payout.c:407-442 | the status and share for every wallet script and coinbase |
| CoinbaseScan.VerdictIsExact | main/stratum_payout.c:407-442 | for every transaction: refused exactly for a 64-bit total of zero, missing exactly for a 64-bit sum of zero, otherwise the share and verdict that the two 64-bit sums give, and below 2^64 good exactly when the product fits and the wallet is paid at least 96.995 percent |
| PayoutWallet.WalletTextScript | main/stratum_payout.c:278-334 | a legacy address, a segwit address, or either with a worker's name gives its script, anything else none |
| PayoutWallet.LegacyGivesScript | main/stratum_payout.c:278-302 | every hash with version byte 0 gives a script that pays a key with that hash, with 5 a script, and no other version byte gives one |
| PayoutWallet.PayeeIs | main/stratum_payout.c:278-315 | every script the wallet text gives is read as the hash or the witness program that the address holds |
| LegacyText.LegacyForm | main/stratum_payout.c:83-131 | a text of 25 bytes starts with '1' for version byte 0, and is 34 characters and starts with '3' for version byte 5 |
| PayoutWallet.LegacyStart | main/stratum_payout.c:278-302 | whatever the hash, a text with a hash script starts with '1', or is 34 characters and starts with '3' |
| PayoutWallet.SegwitIsNotLegacy | main/stratum_payout.c:278-315 | no text, in either case, is both kinds of address, so that legacy is asked first does not matter |
| PayoutWallet.HashScriptIff | main/stratum_payout.c:278-315 | of all texts exactly the hash's own legacy address gives a script that is read as paying the key, or the script, with that hash |
| PayoutWallet.WitnessScriptIff | main/stratum_payout.c:278-315 | of all texts exactly the two networks' addresses of a version and program, in small letters or in capitals, give a script that is read as that program (BIP 141) |
| PayoutWallet.SegwitGivesScript | main/stratum_payout.c:304-315 | the segwit address of every network, version and program gives a script that BIP 141 reads as just that version and program |
| PayoutWallet.WorkerNameIsIgnored | main/stratum_payout.c:317-334 | a dot and a worker's name behind an address change nothing |
| PayoutWallet.EvaluateWallet | main/stratum_payout.c:407-442 | the verdict from the wallet text |
| PayoutWallet.WalletVerdict | main/stratum_payout.c:317-442 | from the wallet text on: unsupported exactly without a script, and below 2^64 missing exactly when no output is read as the wallet's payee, good exactly when the product fits and those outputs pay at least 96.995 percent |
| Crc.BurstDetected | main/asic_crc.c:6-47 | equal-length messages that differ only in a window as wide as the register share a CRC exactly when they are equal |
| Crc.FoldInjective | main/asic_crc.c:6-47 | registers that differ still differ after the same bits |
| Crc.ResidueIff | main/asic_crc.c:6-47 | a message ends at zero exactly when its last bits are the register after all earlier bits |
| Crc.ComputeCrc5 | main/asic_crc.c:6-26 | the byte and bit loops compute the register after all bits |
| Crc.ComputeCrc16 | main/asic_crc.c:28-47 | shifting with a byte mixed in is stepping with its bits |
| Crc.Crc5Residue | main/bitmain_asic.c:161-166 | a response passes exactly when its last five bits are the register after all earlier bits |
| Crc.Crc16Residue | main/asic_crc.c:54-57 | a body and two bytes pass exactly when the bytes are its big-endian CRC |
| Crc.Crc16TellsTwoBytes | main/asic_crc.c:28-47 | equal-length messages differing in one byte, or two side by side, never share a CRC16 |
| Crc.Crc5TellsFiveBits | main/asic_crc.c:6-26 | equal-length messages differing within five bits in a row never share a CRC5 |
| Crc.BuildFrame | main/bm1370.c:88-121 | the buffer filled in place is the specified frame |
| Crc.JobFrameCloses | main/bm1370.c:108-112 | every job frame ends at zero, and no other last two bytes would; the length byte counts what is behind the preamble |
| CrcFrames.CommandFrameCloses | main/bm1370.c:88-121 | every command frame has preamble, header, length, data, and a last byte below 32 whose five bits, and no others, end the register at zero |
| CrcFrames.KnownFrame | main/bm1370.c:123-128 | the chain-inactive command is 55 AA 53 05 00 00 03, as the comment at line 254 has it |
| CrcFrames.KnownCrc16 | main/asic_crc.c:28-47 | the CRC16 of the digits 1 to 9 is 0x29b1, the check value of CRC-16/CCITT-FALSE |
| Pll.ErrorIs | main/asic_pll.c:42-47 | every error is a whole number of 5040ths of a MHz |
| Pll.BetterIsBefore | main/asic_pll.c:49-57 | epsilon ties are exact ties: the test is the order by error, VCO frequency and post-divider product |
| Pll.SearchFeedback | main/asic_pll.c:40-67 | the inner loop keeps the least of what was seen |
| Pll.GetParameters | main/asic_pll.c:13-80 | the result is the least of the whole grid, and all zero exactly for an empty divider range |
| Pll.ExactIsFound | main/asic_pll.c:28-67 | a target that some choice of dividers meets is met, and with no faster VCO |
| Pll.RegistersAgreeIff | main/asic_pll.c:63-80 | the registers give the reported frequency exactly when the feedback divider is below 256 |
| Pll.TopSettles | main/asic_pll.c:36-67 | for 12.5 MHz times the top of the range the search settles on the top with dividers 1, 2, 1 and on nothing else |
| Pll.RangeAgreesIff | main/asic_pll.c:63-80 | for every target the registers give the reported frequency exactly when the range ends below 256 |
| Pll.SearchAt256 | main/asic_pll.c:63-80 | a range that starts at 256 always yields feedback divider 0 |
| Tuning.RampIsGentle | main/asic_frequency_transition.c:13-59 | the ramp goes one way, by more than nothing and at most 6.25 MHz a command, ends within the match epsilon, and is empty exactly when it starts there |
| Tuning.RampArrives | main/asic_frequency_transition.c:52-56 | a ramp to whole MHz ends exactly there |
| Tuning.RampStaysBetween | main/asic_frequency_transition.c:36-50 | no command leaves the range between start and target |
| Tuning.SettingsAreSafe | main/wifi_http.c:1541-1582 | for every monotone minimum voltage met at both ends, every pair commanded by the settings path meets it, through ramp steps and early errors |
| Tuning.PresetIsSafe | main/bitaxe_hw.c:645-664 | the same for the auto-clock path |
| Tuning.SafeIff | main/bitaxe_hw.c:645-664 | both hold exactly unless the old clock rounds to the new one from above and the voltage is lowered under it |
| Tuning.SinksExample | main/wifi_http.c:1541-1582 | 500.4 MHz at 1200 mV set to 500 MHz at 1100 mV commands 1100 mV under 500.4 MHz |
| Tuning.SettingsArrive | main/wifi_http.c:1541-1582 | success exactly when what has to change is within its limits, the regulator obeys and needed limits apply; then voltage and clock are the goal's, a clock that already rounds to it left alone; an error leaves each at its old or new value |
| Tuning.PresetArrives | main/bitaxe_hw.c:617-671 | the same for the auto-clock path |
| Tuning.NothingElseCommanded | main/wifi_http.c:1541-1582 | no clock command when the old clock rounds to the new one, no voltage command at the old voltage |
| Tuning.AsicTune.Transition | main/asic_frequency_transition.c:13-59 | the loop commands exactly the specified frequencies |
| Tuning.AsicTune.ApplySettings | main/wifi_http.c:1541-1582 | the path commands exactly the specified pairs, succeeds exactly when the goal can be reached, and then has reached it |
| Tuning.AsicTune.ApplyPreset | main/bitaxe_hw.c:617-671 | the same for a preset |
| Shares.StepKeepsInv | main/stratum_minimal.c:1661-1676 | issuing, marking, counting and replies on both paths keep the accounts' invariant |
| Shares.RunConserves | main/stratum_minimal.c:1661-1676 | over every run accepted, rejected, pending and overwritten make up the marked shares and the replies that matched an empty slot, and global counts equal pool sums |
| Shares.Balance | main/stratum_minimal.c:4962-4983 | with no slow reply to id 0, accepted + rejected + pending + overwritten = submitted |
| Shares.CountedAtMostOnce | main/stratum_minimal.c:1750-1769 | each id is counted at most once across both paths, whatever replies come |
| Shares.InTimeIsCounted | main/stratum_minimal.c:1669-1676 | a reply within the next 15 marks is counted |
| Shares.PhantomIff | main/stratum_minimal.c:3341-3359 | a reply matches an empty slot exactly with id 0 on the slow path while a slot is empty |
| Shares.PhantomShare | main/stratum_minimal.c:3341-3359 | a slow reply with id 0 before any share counts an accepted share |
| ShareOwners.ReplyCountsForItsPool | main/stratum_minimal.c:1750-1769 | over every run a reply that hits an id counts one share, accepted or rejected, of the pool whose share was marked under that id, and of no other |
| ShareOwners.SubmittedForItsPool | main/stratum_minimal.c:4962-4983 | over every run a pool's submitted counter grows by that pool's marked shares |
| Shares.ShareAccounts.MarkShare | main/stratum_minimal.c:1661-1676 | the new id stands in the next slot, and the accounts follow the ledger |
| Shares.ShareAccounts.Take | main/stratum_minimal.c:1750-1769 | the first slot with the id is emptied and its pool returned |
| Shares.ShareAccounts.HandleReply | main/stratum_minimal.c:3619-3655 | exactly the counters of a matched reply move, on either path |

## Left out

- Sockets, TLS, I2C, UART, GPIO, FreeRTOS calls and clocks: they are parameters, nondeterministic results or the bounds of atomic actions.
- SHA-256 (a function parameter of the Base58 check), cJSON, the ESP OTA API (a byte sequence with begin, abort and append) and flash errors.
- Floating-point rounding: PLL and ramp are exact arithmetic over reals, so a float tie within the epsilon may fall differently.
- `clear_asic_jobs` is always true where pool resets are called, so that parameter is dropped; notes for stale blocks are not modelled, nor is the disabling of a pool by the job task.
- Backup-pool switching: `backup_pool_configured` always returns false.
- Building the coinbase, merkle root and job from a notification; `extranonce_2_generate_bin`, `increment_bitmask` and `compact_target_difficulty`, straight-line helpers.
- PipelineSafety.LiveWorkCoherence: says nothing for a pool whose handler has changed its session and not yet reset, because the code has just that window; a subscribe reply is taken to come before anything else has made the session ready, and `SubscribeReplyIff` says what a later one does.
- OtaInstall.InstallHandler: a receive error and a timeout are both an upload that breaks off.
- LineFraming.LineBuffer.Receive: a line is a byte slice with its terminator; a zero byte inside it, at which a C string reader stops, is not treated apart.
- The gate that drops log lines after the capture time, and the log page's filter for normal lines.
- JsonWriter.QuotedReadsBack: characters are bytes; UTF-8 sequences are copied as they are.
- Tuning.SafeIff: the chip is initialised, the regulator is on, the old voltage is the chip's, and the old clock is the rounded reported one; the fallback to configured values and the safety limits' own effects are not modelled.
- Shares.RunConserves: request ids are unbounded integers, and marking and counting are done by one caller at a time; a share whose reply arrives before it is marked stays pending.
- Pll.GetParameters: the upper divider bound is below 65535, where the 16-bit loop would not end, and the target is a multiple of 1/16 MHz.
- Hashrate, fan and auto-clock heuristics, regulator faults, configuration defaults, HTTP routing, displays and status output: little to prove.
