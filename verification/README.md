# MayaFlux buffers, I/O and live-coding wire layer: a verified model

This project models the parts of MayaFlux whose guarantees concern whole runs, and proves them with
Dafny 4.11. `dafny verify dfyconfig.toml` checks everything.

- **Buffer processing chain** (`Tokens`, `Lists`, `Chain`, `ChainRuns`, `ChainRefinement`, `ChainTokens`,
  `ChainObject`). `Chain` says what each operation does as a function on values; `ChainObject` is the
  source's object, with its maps, 32-slot table and flags updated step by step, every method proved against
  those functions; the other modules prove what holds over every run: duplicate-free lists, exact
  bookkeeping, bounded execution of rejected processors, deferred edits refining direct ones, optimisation
  that cannot be observed, merging, and token enforcement. Processors are identified by number and their
  tokens live in a table shared by chains, with the constructor's token as default.
- **Concurrent protocols**, as state machines over every interleaving: the slot table's compare-and-swap
  claims (`PendingSlots`), the buffer flag, activity counter and chain flag (`Locks`), and the camera's
  request, condition-variable and shutdown protocol (`CameraRequests`). A schedule is any sequence of moves;
  a move that is not enabled does nothing.
- **Audio encoding** (`AudioEncode`, `MuxContext`): re-blocking, timestamps, the padded last frame, and the
  header/packet/trailer discipline. FFmpeg's FIFO is a sequence, the encoder and the container are logs,
  and the outcomes of container calls are inputs.
- **Lila wire layer** (`JsonReply`, `LineFraming`, `Sessions`): escaping and reply lines against a scanner for
  JSON strings (section 7 of RFC 8259), block framing with its cap, and the client registry.
- **Pixel and sample movers** (`Planes`, `Sampling`; `Snapshots`, `SnapshotPairs`, `SnapshotUses`,
  `SnapshotRuns`): plane splitting with flip, strided frame copy, the three node extraction functions, and their
  snapshot protocol under concurrent callers. Sample values are reals.

Where code and documentation disagree, the code is modelled:

- `SAMPLE_RATE` is 0x0 (src/MayaFlux/Core/ProcessingTokens.hpp:99), so tests of that bit are always false, and
  most of the documented compatibility rules (src/MayaFlux/Buffers/BufferUtils.hpp:116-129) do not hold as
  written; `RateRules`, `DeviceRules` and `ConcurrencyRules` say for each when it does.
- Under STRICT the admission test is equality while optimisation filters by compatibility. Validated tokens
  make the two agree (`StrictOptimizeIsIdentity`); the list is emptied only if a processor class writes its
  protected token, or overrides the getter, with a value `validate_token` rejects (`StrictOptimizeEmpties`).
- A call applied directly while operations are pending overtakes them (`DirectEditOvertakes`). `InOrder` is,
  for every kind of call and any queue, the exact condition under which that does not matter
  (`AddOvertakesIff`, `RemoveOvertakesIff`, `OptimizeOvertakesIff`), and a run refines direct edits exactly
  when all its calls meet it (`RefinesDirectIff`). States are compared by every buffer's list, skips and
  removals; an absent bookkeeping set and an empty one count as the same.
- `merge_chain` makes no admission test and does no bookkeeping, so a chain can come to run processors it
  rejects; `MergeWellFormedIff` says exactly when it does not.
- Message framing follows read boundaries, not newlines; `FramesLinesIff` says when the two agree, cap included.
- A refused chunk makes the sound writer skip the final drain, so the residue is lost (`EncodeAll`).
- A thread that waited for a snapshot goes on without claiming, so it can save and restore across another
  call: two threads that sample repeatedly suffice (`TwoThreadsSpoil`). `ExclusionIff` is exact: calls exclude
  each other if one is in progress at a time, or there are at most two in all, and in no other case.
  `CyclesAreIntact` gives the use that is safe: any number of cycles, each with at most two calls and ended
  before the next.
- A call that loads the snapshot context after its release waits for "none" to pass and gives up on a free node
  (`LateLoadGivesUp`); `GivesUpIff` says exactly when a waiting call gives up.
- Buffers sharing an inactive node take turns, but the first buffer of a turn reads one block and the others
  the block after it (`SharedTurns`).
- A chain whose `process` threw keeps its flag and never runs again (`ThrownChainIsWedged`,
  `StuckChainRunsNothing`); under OVERRIDE_REJECT the executed processor is then still listed
  (`ThrowKeepsRejected`). The runs of `ChainRuns` and `ChainRefinement` include such calls.

Assumptions that stand for code outside the model: foreign calls succeed except where an outcome is an input;
allocating a conversion buffer or frame of zero samples fails, as in FFmpeg; sample conversion is samplewise at
equal rate; a socket read completes with at least one byte; a scaled camera frame's line size is at least the
packed width; plain `char` may be signed or unsigned (a parameter).

## Model

| member | source | states |
|---|---|---|
| Tokens.AreTokensCompatible | src/MayaFlux/Buffers/BufferUtils.cpp:10-59 | the ordered bit tests decide exactly: frame-rate preference needs frame rate, otherwise no device clash and no concurrency clash |
| Tokens.SelfCompatibleIff | src/MayaFlux/Buffers/BufferUtils.cpp:61-84 | a token is compatible with itself iff it has FRAME_RATE or `validate_token` accepts it |
| Tokens.NamedTokens | src/MayaFlux/Core/ProcessingTokens.hpp:99-215 | the values of the named backend tokens, all accepted |
| Tokens.BothDevices | src/MayaFlux/Buffers/BufferUtils.cpp:61-84 | a token with both device bits is rejected |
| Tokens.BothConcurrencies | src/MayaFlux/Buffers/BufferUtils.cpp:61-84 | a token with both concurrency bits is rejected |
| Tokens.Accepted | src/MayaFlux/Buffers/BufferUtils.cpp:61-84 | every other token is accepted: a rate bit never decides |
| Tokens.RateRules | src/MayaFlux/Buffers/BufferUtils.hpp:116-119 | the documented rate rules: frame rate needs frame rate holds; adapting sample rate to frame rate, and same sample rate, fail for named backend tokens, with the exact condition of each |
| Tokens.DeviceRules | src/MayaFlux/Buffers/BufferUtils.hpp:121-124 | the documented device rules: sample rate on GPU is accepted for every valid such token; GPU falls back to CPU exactly between frame-rate tokens; CPU uses GPU only at frame rate |
| Tokens.ConcurrencyRules | src/MayaFlux/Buffers/BufferUtils.hpp:126-129 | the documented concurrency rules: mismatched concurrency is compatible exactly when both tokens have FRAME_RATE; matching concurrency exactly when rate (for a frame-rate preference) or device (otherwise) allows; failing inputs, two valid tokens that differ in rate alone among them |
| ChainRuns.ReachableIsSound | src/MayaFlux/Buffers/BufferProcessingChain.cpp:18-191 | every chain reachable by adds, removes, `process` calls that end or throw, and optimisations is duplicate-free, holds only admitted processors, its skip and removal sets equal the incompatible members of its lists, and at most 32 operations are pending |
| ChainRuns.AddOutcome | src/MayaFlux/Buffers/BufferProcessingChain.cpp:18-72 | an add is turned away only by STRICT from another token and by FILTERED from an incompatible one, and then changes nothing; every other add lists the processor, calls `on_attach` if it is new, and books an incompatible one under OVERRIDE_SKIP or OVERRIDE_REJECT |
| ChainRuns.RemoveOutcome | src/MayaFlux/Buffers/BufferProcessingChain.cpp:84-96 | a remove takes exactly that processor off the list and both sets of that buffer, and calls `on_detach` iff it was listed |
| ChainRuns.LoopOutcome | src/MayaFlux/Buffers/BufferProcessingChain.cpp:145-160 | a completed `process` invokes every listed processor in order, save the incompatible ones under OVERRIDE_SKIP, and erases the incompatible ones iff the strategy is OVERRIDE_REJECT |
| ChainRuns.RejectedRunAtMostOncePerAdd | src/MayaFlux/Buffers/BufferProcessingChain.cpp:127-163 | under OVERRIDE_REJECT, over any run, throwing or not, executions of an incompatible processor, plus one if it can still be reached, never exceed successful adds plus one if it could be reached at the start |
| ChainRuns.RejectedRunFromStart | src/MayaFlux/Buffers/BufferProcessingChain.cpp:47-71 | from an empty chain, at most one execution per successful add |
| ChainRuns.ThrowKeepsRejected | src/MayaFlux/Buffers/BufferProcessingChain.cpp:145-162 | after a throw the executed incompatible processor is still listed, and the chain is stuck |
| ChainRuns.StuckChainRunsNothing | src/MayaFlux/Buffers/BufferProcessingChain.cpp:129-134 | a stuck chain stays stuck over any run and executes nothing |
| ChainRuns.HooksBalance | src/MayaFlux/Buffers/BufferProcessingChain.cpp:67-95 | over any run, throwing or not, `on_attach` calls beyond `on_detach` calls equal presence plus the times the processor was dropped by cleanup or filtering, which make no call |
| ChainRuns.CompatibleOrderKept | src/MayaFlux/Buffers/BufferProcessingChain.cpp:292-330 | compatible processors keep their relative order over any run that removes neither |
| ChainRefinement.RefinesDirectIff | src/MayaFlux/Buffers/BufferProcessingChain.cpp:127-191 | over any run, throwing or not, the settled chain holds after every call the lists and flag of a chain that applies edits directly in call order (first 32 per `process`) if and only if every call is in order |
| ChainRefinement.DeferredRefinesDirect | src/MayaFlux/Buffers/BufferProcessingChain.cpp:127-191 | over any run in order, every `process` invokes what it would if edits were applied directly in call order, and the settled lists, skips and removals are the same |
| ChainRefinement.DeferredRefinesDirectFromStart | src/MayaFlux/Buffers/BufferProcessingChain.cpp:9-16 | the same refinement from a new chain |
| ChainRefinement.AddOvertakesIff | src/MayaFlux/Buffers/BufferProcessingChain.cpp:9-72 | against any queue, a direct add leaves the call-order lists iff it is turned away, or its processor is listed or removed in the queue and not finally removed, or no processor the queue appends ahead of it is kept |
| ChainRefinement.RemoveOvertakesIff | src/MayaFlux/Buffers/BufferProcessingChain.cpp:74-96 | against any queue, a direct remove leaves the call-order lists iff the queue's last admitted operation on that processor is not an add |
| ChainRefinement.OptimizeOvertakesIff | src/MayaFlux/Buffers/BufferProcessingChain.cpp:292-318 | against any queue, a direct optimisation leaves the call-order lists iff no compatible processor is appended, and kept, behind an incompatible one; the filtering strategies have their own exact cases |
| ChainRefinement.StepRefinesFully | src/MayaFlux/Buffers/BufferProcessingChain.cpp:9-96 | the same for every call, edits lost to a full table included, and for skips and removals too |
| ChainRefinement.OvertakingIff | src/MayaFlux/Buffers/BufferProcessingChain.cpp:9-16 | with one operation pending, a direct edit reaches the call-order state iff the two do not conflict: two effective adds of different processors, or an admitted add and a remove of one processor |
| ChainRefinement.DirectEditOvertakes | src/MayaFlux/Buffers/BufferProcessingChain.cpp:74-82 | a direct remove overtakes a pending add: the processor is invoked although it was removed last |
| ChainRefinement.OptimizePreservesMeaning | src/MayaFlux/Buffers/BufferProcessingChain.cpp:145-156 | under OVERRIDE_SKIP, deleting every optimisation from a run changes nothing any `process` invokes |
| ChainRefinement.OptimizeIsIdempotent | src/MayaFlux/Buffers/BufferProcessingChain.cpp:292-318 | idempotent, and each compatibility class keeps its order |
| ChainRefinement.OptimizePermutes | src/MayaFlux/Buffers/BufferProcessingChain.cpp:311-317 | without filtering, the optimised list is a permutation |
| ChainRefinement.OptimizeFilters | src/MayaFlux/Buffers/BufferProcessingChain.cpp:302-317 | under STRICT or FILTERED the result is the unique order-preserving filter to compatible processors |
| ChainRefinement.OptimizeBeforeCleanup | src/MayaFlux/Buffers/BufferProcessingChain.cpp:320-330 | under OVERRIDE_REJECT the chain after the next loop is the same with or without optimisation, apart from an empty list created for an unknown buffer |
| ChainRefinement.StrictOptimizeIsIdentity | src/MayaFlux/Buffers/BufferProcessor.hpp:158-162 | with validated tokens, optimisation leaves every admitted STRICT list as it is |
| ChainRefinement.StrictOptimizeIff | src/MayaFlux/Buffers/BufferProcessingChain.cpp:22-30 | with any tokens, an admitted STRICT list survives optimisation iff the mask is self-compatible, else it is emptied |
| ChainRefinement.StrictOptimizeEmpties | src/MayaFlux/Buffers/BufferProcessingChain.cpp:292-318 | a processor with the unvalidated token CPU_PROCESS and GPU_PROCESS is admitted under that mask and optimised away |
| ChainTokens.EveryBuiltChainIsDupFree | src/MayaFlux/Buffers/BufferProcessingChain.cpp:57-71 | any mix of calls, policy changes and merges of chains so built leaves no duplicate |
| ChainTokens.MergeAppendsNew | src/MayaFlux/Buffers/BufferProcessingChain.cpp:274-290 | the target list is a prefix, followed by exactly the new processors in source order |
| ChainTokens.MergeIsIdempotent | src/MayaFlux/Buffers/BufferProcessingChain.cpp:274-290 | merging the same chain twice equals merging it once |
| ChainTokens.MergeIsAssociative | src/MayaFlux/Buffers/BufferProcessingChain.cpp:274-290 | merging is associative on duplicate-free chains |
| ChainTokens.MergeWellFormedIff | src/MayaFlux/Buffers/BufferProcessingChain.cpp:274-290 | a merge keeps only admitted processors and exact bookkeeping iff every processor it brings in is admitted and, under OVERRIDE_SKIP and OVERRIDE_REJECT, compatible |
| ChainTokens.MergeBypassesAdmission | src/MayaFlux/Buffers/BufferProcessingChain.cpp:280-287 | a FILTERED chain comes to hold and invoke a processor whose add it refuses |
| ChainTokens.ReportPredictsProcess | src/MayaFlux/Buffers/BufferProcessingChain.cpp:332-357 | no processor reported as skipped is invoked; if the next `process` runs to its end, flags and counts are exactly what it skips and erases on the list it iterates, else nothing is erased; that is the reported list unless operations on the buffer are pending |
| ChainTokens.CountsMatch | src/MayaFlux/Buffers/BufferProcessor.hpp:228-243 | skipped and removal counts equal the shortfall of invoked and of kept processors |
| ChainTokens.ReportEntries | src/MayaFlux/Buffers/BufferProcessingChain.cpp:342-351 | entry k of a report carries the k-th listed processor, its token and its compatibility |
| ChainTokens.EnforceKeepsVerdict | src/MayaFlux/Buffers/BufferProcessingChain.cpp:359-396 | enforcement with an accepted mask changes no processor's compatibility nor the validation verdict |
| ChainTokens.EnforceIsIdempotent | src/MayaFlux/Buffers/BufferProcessingChain.cpp:379-396 | after enforcement nothing needs enforcing and a second one changes nothing |
| ChainTokens.EnforceKeepsWellFormed | src/MayaFlux/Buffers/BufferProcessingChain.cpp:379-396 | reachable chains stay well-formed under the new tokens |
| ChainTokens.EnforceThenOptimize | src/MayaFlux/Buffers/BufferProcessingChain.cpp:292-318 | enforcement then STRICT optimisation keeps exactly the compatible processors, all carrying the mask |
| ChainObject.ProcessorTable.SetProcessingToken | src/MayaFlux/Buffers/BufferProcessor.hpp:158-162 | stores the token iff none of the three bit pairs is set together, otherwise changes nothing; keeps all tokens valid |
| ChainObject.BufferProcessingChain.constructor | src/MayaFlux/Buffers/BufferProcessingChain.hpp:446-471 | a new chain is empty, idle, FILTERED, with AUDIO_BACKEND as mask |
| ChainObject.BufferProcessingChain.AddProcessorDirect | src/MayaFlux/Buffers/BufferProcessingChain.cpp:18-72 | refused exactly by STRICT from another token or by FILTERED from an incompatible one; otherwise the processor is listed, booked if its strategy asks for it, and attached iff it is new; the whole new state is the specified add |
| ChainObject.BufferProcessingChain.RemoveProcessorDirect | src/MayaFlux/Buffers/BufferProcessingChain.cpp:84-96 | new state is the specified removal; `on_detach` is called iff the processor was listed |
| ChainObject.BufferProcessingChain.QueuePendingOp | src/MayaFlux/Buffers/BufferProcessingChain.cpp:398-419 | appends to the pending operations, refusing only when 32 are pending |
| ChainObject.BufferProcessingChain.AddProcessor | src/MayaFlux/Buffers/BufferProcessingChain.cpp:9-16 | one step of the run model: deferred while the chain processes or the processor is active, else direct; the outcome says which |
| ChainObject.BufferProcessingChain.RemoveProcessor | src/MayaFlux/Buffers/BufferProcessingChain.cpp:74-82 | one step of the run model: deferred while the chain processes, else direct |
| ChainObject.BufferProcessingChain.ProcessPendingOperations | src/MayaFlux/Buffers/BufferProcessingChain.cpp:173-191 | empties the table and applies its operations in order, with their attach and detach calls |
| ChainObject.BufferProcessingChain.InvokeAll | src/MayaFlux/Buffers/BufferProcessingChain.cpp:145-156 | edits issued by running processors leave the lists being iterated unchanged and queue up in call order; a throw stops the loop after the thrower |
| ChainObject.BufferProcessingChain.Process | src/MayaFlux/Buffers/BufferProcessingChain.cpp:127-163 | every call, nested, completing or throwing, is one step of the run model and invokes exactly the processors it specifies |
| ChainObject.BufferProcessingChain.CleanupRejectedProcessors | src/MayaFlux/Buffers/BufferProcessingChain.cpp:320-330 | keeps exactly the compatible processors and clears the removal set |
| ChainObject.BufferProcessingChain.OptimizeForTokens | src/MayaFlux/Buffers/BufferProcessingChain.cpp:292-318 | new list is the specified partition |
| ChainObject.BufferProcessingChain.MergeChain | src/MayaFlux/Buffers/BufferProcessingChain.cpp:274-290 | new lists are the specified merge |
| ChainObject.BufferProcessingChain.AnalyzeTokenCompatibility | src/MayaFlux/Buffers/BufferProcessingChain.cpp:332-357 | exactly one report for every buffer with an entry; every entry names its processor, token, compatibility and the two flags |
| ChainObject.BufferProcessingChain.ValidateAllProcessors | src/MayaFlux/Buffers/BufferProcessingChain.cpp:359-377 | true iff every listed processor is compatible |
| ChainObject.BufferProcessingChain.EnforceChainToken | src/MayaFlux/Buffers/BufferProcessingChain.cpp:379-396 | raises iff the mask is rejected and some processor would receive it, then with no token changed; otherwise enforces |
| PendingSlots.SlotsInEveryInterleaving | src/MayaFlux/Buffers/BufferProcessingChain.cpp:398-419 | claimed slots form a prefix, no slot has two owners, a stored payload is its owner's, "full" only with 32 taken |
| PendingSlots.SlotsHoldWhatWasAsked | src/MayaFlux/Buffers/BufferProcessingChain.cpp:407-409 | in every interleaving a stored slot holds exactly the operation its caller passed, read off the schedule |
| PendingSlots.AcceptedWereIssued | src/MayaFlux/Buffers/BufferProcessingChain.cpp:398-419 | nothing is claimed or applied that no caller asked for |
| PendingSlots.EveryCallEnds | src/MayaFlux/Buffers/BufferProcessingChain.cpp:398-419 | every call ends within 35 actions of its own whatever others do, and a claimed slot is always stored to and counted |
| PendingSlots.ClaimedSlotIsStable | src/MayaFlux/Buffers/BufferProcessingChain.cpp:402-411 | no step but a drain changes a finished call's slot |
| PendingSlots.QuiescentTable | src/MayaFlux/Buffers/BufferProcessingChain.cpp:407-418 | with all calls returned, the counter is the number of active slots, accepted calls number min(32, calls), payloads are in claim order |
| PendingSlots.NothingLostOrDuplicated | src/MayaFlux/Buffers/BufferProcessingChain.cpp:173-191 | over any run with drains, claimed operations are the applied ones followed by the pending ones |
| PendingSlots.LaterCallGetsLaterSlot | src/MayaFlux/Buffers/BufferProcessingChain.cpp:400-411 | a call that starts after another claimed its slot gets a later one |
| Locks.EveryInterleaving | src/MayaFlux/Buffers/BufferProcessor.cpp:8-42 | a buffer flag is set iff exactly one call holds it, a counter equals the calls in its counted region, a chain flag is set iff one call is inside or died inside |
| Locks.GetsInIff | src/MayaFlux/Buffers/BufferProcessor.cpp:10-16 | in every reachable state a call is skipped iff another holds its buffer or occupies its chain; otherwise it goes on into its counted region |
| Locks.OutcomeIff | src/MayaFlux/Buffers/BufferProcessor.cpp:18-27 | in every interleaving a call that ended was skipped iff its code never ran, threw iff its code raised, and returned otherwise |
| Locks.EveryCallEnds | src/MayaFlux/Buffers/BufferProcessor.cpp:8-42 | no call blocks: each of its actions brings it nearer its end, and no other call moves it |
| Locks.FirstComesFirst | src/MayaFlux/Buffers/AudioBuffer.hpp:319-324 | a first call on a free buffer or chain gets in and a second one is then turned away |
| Locks.AtMostOne | src/MayaFlux/Buffers/AudioBuffer.hpp:319-338 | mutual exclusion on buffers and inside chains, also on throwing runs |
| Locks.OthersNeverRelease | src/MayaFlux/Buffers/BufferProcessor.cpp:10-14 | no other call's step, failed acquire included, releases a held lock |
| Locks.NoLeaks | src/MayaFlux/Buffers/BufferProcessor.cpp:18-27 | when all calls have ended, normally or by exception, no flag is set and counters are zero |
| Locks.ThrownChainIsWedged | src/MayaFlux/Buffers/BufferProcessingChain.cpp:127-163 | after a throw inside `process` no later call gets inside that chain |
| Locks.NonThrowingFlag | src/MayaFlux/Buffers/BufferProcessingChain.cpp:129-162 | without exceptions the chain flag is set iff a call is inside |
| CameraRequests.NoLostWakeup | src/MayaFlux/IO/CameraReader.cpp:300-309 | the decoder is never blocked with the flag set unless a caller has still to notify |
| CameraRequests.NoLostRequest | src/MayaFlux/IO/CameraReader.cpp:263-322 | every request is still flagged, or its attempt is the decoder's next step, or an attempt started after it |
| CameraRequests.RequestsAreStored | src/MayaFlux/IO/CameraReader.cpp:263-270 | in every run a caller past its store has its request in the history |
| CameraRequests.FlaggedRequestIsServed | src/MayaFlux/IO/CameraReader.cpp:300-318 | in every reachable state with a flagged request, no stop, no caller on the mutex and the thread awake, the flag is cleared and the attempt made within 8 steps of the thread |
| CameraRequests.NotifiedRequestIsServed | src/MayaFlux/IO/CameraReader.cpp:263-318 | a sleeping thread with a flagged request is woken by the pending notification and makes the attempt within 7 steps |
| CameraRequests.CallAlone | src/MayaFlux/IO/CameraReader.cpp:263-270 | a call that finds the mutex free stores, releases, wakes the thread and returns in 4 steps |
| CameraRequests.OneRequestOneAttempt | src/MayaFlux/IO/CameraReader.cpp:278-318 | from the start: an idle thread falls asleep, and one call gets exactly one attempt, which pulls iff the container lives |
| CameraRequests.SpuriousWakeupIsHarmless | src/MayaFlux/IO/CameraReader.cpp:304-308 | a thread woken without a request returns to sleep with nothing changed |
| CameraRequests.StopIsObeyed | src/MayaFlux/IO/CameraReader.cpp:302-312 | a thread that will see the stop exits within 4 steps, finishing at most the attempt it had begun |
| CameraRequests.ShutdownWakes | src/MayaFlux/IO/CameraReader.cpp:288-298 | stopping a sleeping thread wakes it and it exits without an attempt |
| CameraRequests.AtRestAllServed | src/MayaFlux/IO/CameraReader.cpp:263-322 | with callers returned and the decoder asleep, every request was followed by an attempt |
| CameraRequests.AttemptsBounded | src/MayaFlux/IO/CameraReader.cpp:311-318 | attempts never outnumber clears, nor clears requests, across restarts |
| AudioEncode.AudioEncodeContext.SendFifoFrame | src/MayaFlux/IO/AudioEncodeContext.cpp:310-383 | takes at most one frame from the FIFO, pads on request, stamps it with the samples sent so far |
| AudioEncode.AudioEncodeContext.EncodeFrames | src/MayaFlux/IO/AudioEncodeContext.cpp:228-282 | sends exactly the full blocks of FIFO plus chunk and keeps the rest |
| AudioEncode.AudioEncodeContext.Drain | src/MayaFlux/IO/AudioEncodeContext.cpp:288-304 | empties the FIFO, sending the blocks and the padded last frame; the loop ends by FIFO size |
| AudioEncode.ChunkingIsInvisible | src/MayaFlux/IO/AudioEncodeContext.cpp:228-282 | for frame size F > 0 any split of the samples sends the input cut into F-blocks, residue below F |
| AudioEncode.SameSamplesSameFrames | src/MayaFlux/IO/AudioEncodeContext.cpp:228-282 | equal samples give equal frames and timestamps |
| AudioEncode.SamplesConserved | src/MayaFlux/IO/AudioEncodeContext.cpp:261-280 | samples in are samples sent plus residue, with no residue at frame size 0 |
| AudioEncode.SessionStamps | src/MayaFlux/IO/AudioEncodeContext.cpp:369-370 | at every frame size, timestamps over a whole session are the lengths of the earlier frames |
| AudioEncode.EncodeAll | src/MayaFlux/IO/SoundFileWriter.cpp:206-246 | the worker loop sends the session of its chunks, then drains iff no chunk was refused |
| AudioEncode.DrainedOutput | src/MayaFlux/IO/AudioEncodeContext.cpp:339-370 | drained frames are the input plus the least silence completing a frame, all frames full |
| AudioEncode.WholeFile | src/MayaFlux/IO/AudioEncodeContext.cpp:228-304 | chunked encoding then drain sends what draining the undivided input would |
| AudioEncode.StampIsOffset | src/MayaFlux/IO/AudioEncodeContext.cpp:369-370 | a frame's timestamp is the total length of earlier frames |
| AudioEncode.PadFillsFrame | src/MayaFlux/IO/AudioEncodeContext.cpp:352-363 | the cleared range ends exactly at the frame's end in both layouts |
| AudioEncode.PadClearsMissingSamples | src/MayaFlux/IO/AudioEncodeContext.cpp:352-363 | a byte is cleared iff it belongs to a sample that was not read |
| AudioEncode.PadPlanes | src/MayaFlux/IO/AudioEncodeContext.cpp:358-363 | every plane has that range zeroed and nothing else changed |
| MuxContext.EveryFileIsComplete | src/MayaFlux/IO/FFmpegMuxContext.cpp:26-140 | for any calls and failures ending in `close`, each file's log is empty or header, packets, one trailer; a written header implies an open context |
| MuxContext.FileHoldsWhatWasAccepted | src/MayaFlux/IO/FFmpegMuxContext.cpp:26-140 | opening, writing and closing adds exactly one file, holding its header, the packets accepted since in order, and the trailer, or nothing if no header was accepted; a failed opening adds none |
| MuxContext.FFmpegMuxContext.OpenContext | src/MayaFlux/IO/FFmpegMuxContext.cpp:26-61 | closes the previous file first; open iff both library calls succeed |
| MuxContext.FFmpegMuxContext.CloseContext | src/MayaFlux/IO/FFmpegMuxContext.cpp:63-79 | writes the trailer iff a header was written and leaves nothing open |
| MuxContext.FFmpegMuxContext.WriteHeaderOp | src/MayaFlux/IO/FFmpegMuxContext.cpp:101-122 | at most one header per file |
| MuxContext.FFmpegMuxContext.WritePacketOp | src/MayaFlux/IO/FFmpegMuxContext.cpp:124-140 | packets only after a header |
| JsonReply.EscapeJson | src/Lila/Lila.cpp:263-292 | the loop computes the specified escaping |
| JsonReply.EscapeRoundTrip | src/Lila/Lila.cpp:263-292 | a JSON string scanner stops exactly at the server's closing quote and returns the text minus dropped bytes |
| JsonReply.NothingDroppedIff | src/Lila/Lila.cpp:285-288 | the text survives unchanged iff every byte is tab, line feed, carriage return, or from 0x20 up (below 0x80 where `char` is signed) |
| JsonReply.ErrorReplyIsJson | src/Lila/Server.cpp:104-104 | the whole error reply scans as one JSON object with exactly the members status and message |
| JsonReply.ReplyIsOneLine | src/Lila/Server.cpp:34-47 | every reply to an evaluation has exactly one newline, its last byte |
| JsonReply.RepliesSay | src/Lila/Lila.cpp:78-98 | a successful evaluation is answered with the bare newline, a failed one and an empty request with the JSON object carrying the surviving error text or "Empty message" |
| JsonReply.FixedTexts | src/Lila/Server.cpp:104-104 | the member names and fixed texts as written |
| LineFraming.BytesAccountedFor | src/Lila/Server.cpp:77-112 | received bytes are the closed blocks, oversize discards and the buffer in order; cap and newline invariants |
| LineFraming.DispatchIsTrimmedBlock | src/Lila/Server.cpp:92-107 | a dispatched text is its block minus trailing CR and LF, non-empty, control iff it starts with `@` |
| LineFraming.FramesLinesIff | src/Lila/Server.cpp:77-112 | a session closes exactly the stream's lines, discarding nothing, iff no chunk has a newline before its last byte and every line, the unfinished one included, is within the cap |
| LineFraming.ClientSession.OnChunk | src/Lila/Server.cpp:77-112 | one read updates the buffer as specified and hands out the text of the block it closes, a plain message only if a handler is set |
| LineFraming.ReadAll | src/Lila/Server.cpp:77-112 | over any reads, a session with a handler hands out exactly the texts of its closed blocks in order, one without exactly the control messages among them; discards hand out nothing |
| Sessions.LifeOfAClient | src/Lila/Server.cpp:178-270 | over every run a client id logs nothing, Connected, or Connected then Disconnected; ids are never reused |
| Sessions.HandlersAnnounce | src/Lila/Server.cpp:192-270 | in every reachable state an accept registers a fresh id and announces it, removing a registered client unregisters it and ends its log with Disconnected, any other remove does nothing, and `stop` clears the registry silently |
| Sessions.Registry.AcceptClient | src/Lila/Server.cpp:211-246 | takes the next id, registers it, publishes Connected |
| Sessions.Registry.RemoveSession | src/Lila/Server.cpp:248-270 | publishes Disconnected iff the client was registered |
| Sessions.Registry.StopServer | src/Lila/Server.cpp:192-198 | clears the registry without events |
| Planes.Deinterleave | src/MayaFlux/IO/EXRWriter.cpp:130-154 | every plane element is the specified source sample, all accesses in bounds |
| Planes.GuardIff | src/MayaFlux/IO/EXRWriter.cpp:186-193 | the size test admits exactly the buffers in which all accesses are in bounds |
| Planes.InterleaveRestores | src/MayaFlux/IO/EXRWriter.cpp:138-151 | interleaving the planes restores the source samples |
| Planes.FlipTwice | src/MayaFlux/IO/EXRWriter.cpp:139-140 | flipping twice is the identity |
| Planes.CopyFrame | src/MayaFlux/IO/CameraReader.cpp:214-226 | both copy paths write the packed rows and nothing past them |
| Planes.PackedWhenStridesAgree | src/MayaFlux/IO/CameraReader.cpp:216-218 | with equal strides the row copy is the single memcpy |
| Planes.PackedByte | src/MayaFlux/IO/CameraReader.cpp:220-225 | each packed byte is the same byte of the same source row |
| Sampling.WaitForSnapshot | src/MayaFlux/Buffers/BufferUtils.cpp:98-124 | succeeds iff one of the first `max_spins` polls finds the snapshot over; at most `max_spins` turns and 1023 pauses |
| Sampling.Node.SampleSaved | src/MayaFlux/Buffers/BufferUtils.cpp:214-227 | saved sampling yields the direct run's samples and restores the state unless it raised |
| SnapshotRuns.ExclusionIff | src/MayaFlux/Buffers/BufferUtils.cpp:214-254 | calls on a node exclude each other in every interleaving of up to `calls` calls with at most `atOnce` in progress at a time iff `calls` is at most 2, or `atOnce` at most 1, or a wait may not spin |
| SnapshotUses.CyclesAreIntact | src/MayaFlux/Buffers/BufferUtils.cpp:214-254 | over any number of cycles of at most two calls each, every completed call gets the samples of a direct run and the node keeps its state |
| SnapshotUses.OneAtATimeIsIntact | src/MayaFlux/Buffers/BufferUtils.cpp:214-233 | so it is for any number of calls made one at a time |
| SnapshotUses.TwoCallsAreIntact | src/MayaFlux/Buffers/BufferUtils.cpp:214-254 | the first two calls on a node, in every interleaving: each completed one gets the samples of a direct run and the state is restored |
| SnapshotUses.ExclusiveRunsAreIntact | src/MayaFlux/Buffers/BufferUtils.cpp:236-252 | so it is over any run of any number of calls that do exclude each other |
| SnapshotRuns.TwoThreadsSpoil | src/MayaFlux/Buffers/BufferUtils.cpp:236-252 | a run with never more than two calls in progress: a waiter passes beside a new claimer, all three calls complete, one gets a later sample and the node ends one sample ahead |
| SnapshotRuns.ThreeCallsSpoil | src/MayaFlux/Buffers/BufferUtils.cpp:236-252 | the same from two waiters that pass together |
| SnapshotRuns.GivesUpIff | src/MayaFlux/Buffers/BufferUtils.cpp:98-124 | over any run, a waiting call that ends has given up iff none of its polls within the limit found another context than the one it loaded |
| SnapshotRuns.LateLoadGivesUp | src/MayaFlux/Buffers/BufferUtils.cpp:236-241 | a call that loads the context after its release gives up at every spin limit, alone on a free node |
| Sampling.ExtractMultipleSamples | src/MayaFlux/Buffers/BufferUtils.cpp:185-255 | every completing path yields the direct run's samples; snapshot paths leave the state, the inactive path advances it |
| Sampling.ExtractSingleSample | src/MayaFlux/Buffers/BufferUtils.cpp:126-183 | the same for one sample, zero when there is none |
| Sampling.UpdateBuffer | src/MayaFlux/Buffers/BufferUtils.cpp:257-321 | the direct run's samples are added with factor `mix`; an exception keeps those already added |
| Sampling.RunsJoin | src/MayaFlux/Buffers/BufferUtils.cpp:202-209 | successive inactive extractions continue one stream |
| Sampling.SharedTurns | src/MayaFlux/Nodes/Node.cpp:148-176 | over any number of extractions by buffers sharing an inactive node, one turn moves the node on by exactly one block, the first reader of a turn gets that block and the others the next |
| Sampling.Node.MarkBufferProcessed | src/MayaFlux/Nodes/Node.cpp:148-165 | sets the flag and counts, once, for inactive nodes shared by several buffers; returns whether it could |
| Sampling.Node.RequestBufferReset | src/MayaFlux/Nodes/Node.cpp:167-176 | clears flag and count when the last sharing buffer asks, else counts |

## Left out

- Drains that overlap a half-finished enqueue: `PendingSlots` drains only between calls, since a slot is claimed before its payload is written.
- Races between a direct edit on one thread and `process` on another: the flag check and the edit are separate steps in the source.
- `BufferProcessingChain::process_non_owning` and `process_complete`, pre-, post- and final processors: no queue or lock of their own.
- The wording of rejection reasons, incompatibility texts and error messages; rejection kinds are modelled.
- What `on_attach` and `on_detach` do in a processor, and when a chain's cleanup or filtering should have called them.
- Memory orderings weaker than interleaving semantics.
- Wake-up on shutdown of a decode thread that has read both flags and is about to park: stop is stored and notified without the mutex, so it may sleep on. `StopIsObeyed` and `ShutdownWakes` cover every other state.
- `pull_frame` up to its final copy, scaling, encoding and container muxing: foreign code.
- Encoder failures in the middle of `encode_frames` or `drain`, and encoding after `drain`.
- Sampling.ExtractMultipleSamples: in its contract the node state after a wait is the input `afterWait` and the call then runs alone; `Snapshots` covers concurrent callers, without exceptions, the fast path and the sharing counter. Save and restore are modelled as copying the state.
- Sampling.ExtractSingleSample: the same.
- Sampling.UpdateBuffer: the same.
- 32- and 64-bit wrap-around of sizes, timestamps and client ids.
- Control-message replies, which embed client text unescaped, broadcasts, and session names.
- Compression, channel naming and file output of the EXR writer.
- Buffer manager, engine, node graph, scheduling, GPU and windowing code.
