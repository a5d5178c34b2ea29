# LocalDesk daemon protocols, modelled and verified in Dafny

LocalDesk's daemon `appd` is a set of small concurrent protocols built from atomics, mutexes, maps,
pipes and length-prefixed streams. This project models the hardest of them and proves what they promise
over every input, every interleaving or every run.

| part | files | what is proved |
|---|---|---|
| remote sessions | `SessionRegistry`, `SessionExpiry` | who closes a session, how long one stays by the events of the run, conservation of the 32 permits, the drain, the reaper loop |
| remote profiles | `ProfileStore`, `Paging`, `ProfileGate` | compare-and-swap revisions, jump references, exactly when page walks are complete, consistency with the transfer queue |
| usage queries | `UsageQuerySlot` | the single-slot queue, the cancellation handshake and the shutdown, step by atomic step |
| usage worker | `UsageWorker`, `UsageSummary` | nothing is published Healthy without its facts; bucket coverage is chronological |
| IPC streams | `LengthPrefix`, `IpcFrame`, `IpcStream`, `IpcOutcome`, `IpcPlan`, `NetworkStream`, `NetworkPlan`, `TelemetryStream`, `Base64`, `NoteStream`, `NotePlan` | readers accept exactly the legal streams and report every other by its first wrong frame; server plans are read back; limits never refuse a legal stream |
| network helper | `HelperFraming`, `HelperProtocol`, `HelperSession` | the byte codec, the serve loop, the two processes and their generations |
| network freshness | `NetworkDomain`, `NetworkFreshness`, `NetworkDelivery` | what an answer may show of the last sample, and that the client reads exactly that answer |

How things are modelled:

- A protocol between threads or processes is a state machine. One step is one atomic operation, one
  critical section, one channel or pipe operation, or one answer from outside. Theorems quantify over
  every valid sequence of steps from the initial state. History fields record what happened; no step
  reads them.
- Code that updates an object is a class whose methods are proved against a function of the old state;
  loops are methods with invariants. What the source promises is then proved about those functions.
- Every IPC reader runs the same loop. `IpcStream` proves that loop once, over the bytes of a
  connection, and a `Protocol` value holds the checks in which readers differ.
- Clocks, identifiers, poll results, JSON encoding and SHA-256 are parameters. Times are naturals (wall
  clocks integers), rates and shares are reals, and a `char` of a name stands for one byte of UTF-8.
- 32-bit and 64-bit limits of the source are written out where the code checks or relies on them.

Three results differ from what one might expect of the code:

- A cancel can be lost. A late cancel of an earlier request may overwrite the mark of a later one before
  `begin` reads it (`CancelCanBeLost`). `BeginHonoursCancelExactly` gives the exact condition.
- The profile store commits an update even when the wall clock is before the profile's creation time, and
  then refuses to read the row. `ClockStepBackStrandsProfile` is a concrete run, `UpsertReadableExactly`
  the exact condition, and `UnreadableRowIsForever` shows that no later command repairs it and that every
  delete in the table fails from then on. Listing fails with it: a page walk returns every profile exactly
  once if and only if every row is readable (`WalkIsComplete`), and past an unreadable row every full walk
  fails for good (`UnreadableRowEndsWalks`).
- Following `next_offset` over a directory reproduces it exactly up to a length given by
  `Paging.Reach`; beyond it the conversion to 32 bits panics (`DirectoryWalkIsExact`).

The server's message for an unsupported telemetry schema says "must be 3" while the constant is 4
(`crates/domain/src/telemetry.rs:4`); the model follows the constant.

`dafny verify dfyconfig.toml` checks the whole project.

## Model

| member | source | states |
|---|---|---|
| UsageQuerySlot.RunKeepsInv | bins/appd/src/usage.rs:77-184 | every interleaving of clients, worker and shutdown keeps the slot, token, cancellation and shutdown invariants |
| UsageQuerySlot.BusyCountsTheOneRequest | bins/appd/src/usage.rs:77-129 | until the worker leaves its loop, `busy` is set exactly when one request is reserved, queued or running, and never two are |
| UsageQuerySlot.FullMeansShutdown | bins/appd/src/usage.rs:96-125 | while the worker is in its loop, a refused `try_send` met a Shutdown message in the slot |
| UsageQuerySlot.TokensAreUnique | bins/appd/src/usage.rs:78-84 | tokens of different clients differ and are not zero, below the wrap of the counter |
| UsageQuerySlot.StopReachesRunningQuery | bins/appd/src/usage.rs:144-184 | once `cancel_current` has returned, a query still running was interrupted while it was current |
| UsageQuerySlot.CancelReachesRunningQuery | bins/appd/src/usage.rs:144-175 | the same for a completed `cancel`, unless another token's cancel overwrote its mark |
| UsageQuerySlot.BeginHonoursCancelExactly | bins/appd/src/usage.rs:144-155 | a request cancelled before `begin` decides is refused if and only if no other cancel overwrote its mark |
| UsageQuerySlot.CancelTouchesOnlyItsToken | bins/appd/src/usage.rs:168-175 | every refusal and every interrupt is of a token whose own cancel was asked for, or comes from the stop |
| UsageQuerySlot.CancelCanBeLost | bins/appd/src/usage.rs:168-175 | a reachable state in which a completed cancel neither refused nor interrupted its running query |
| UsageQuerySlot.ShutdownCannotHang | bins/appd/src/usage.rs:201-209 | after shutdown's `try_send`, successful or not, the worker always has an enabled step that brings it closer to exit, and takes at most one more message |
| UsageQuerySlot.ClaimExactly | bins/appd/src/usage.rs:78-84 | a new client gets the slot exactly when `busy` is not set |
| UsageQuerySlot.ClientStepExactly | bins/appd/src/usage.rs:86-129 | a send is queued exactly when the slot is empty and the receiver alive, and a cancel stores its token and interrupts exactly its own running query |
| UsageQuerySlot.FinishExactly | bins/appd/src/usage.rs:157-166 | `finish` removes the mark of its own token and no other |
| UsageQuerySlot.ExitFreesTheSlot | bins/appd/src/usage.rs:909-938 | after the worker's last store `busy` is set only by a later claim, which a new client can make |
| SessionExpiry.WaitZeroMeansExpired | bins/appd/src/remote.rs:122-131 | the wait is zero exactly when the session is expired; the session expires at the end of the wait and not before |
| SessionExpiry.TurnAdvances | bins/appd/src/remote.rs:1738-1782 | under any activity a turn of the reaper that does not end brings the lease's end strictly closer |
| SessionExpiry.ReapWhenIdle | bins/appd/src/remote.rs:1738-1847 | the loop ends within a bound, at the first turn that gives a reason, and removes a session only if it is expired at that moment |
| SessionRegistry.RunKeepsInv | bins/appd/src/remote.rs:1506-1661 | every interleaving of connect, register, close, reap and shutdown keeps permits, ownership, phases and reapers consistent |
| SessionRegistry.PermitsAreConserved | bins/appd/src/remote.rs:1708-1724 | free permits and permits held by connects, entries, closing and transfer sessions add up to 32; the maps never hold more than 32 entries |
| SessionRegistry.CloseAtMostOnce | bins/appd/src/remote.rs:1566-1661 | no session's close is attempted twice, whoever races for it |
| SessionRegistry.QuiescenceClosedEverySession | bins/appd/src/remote.rs:1849-1894 | when shutdown and all operations have ended, every session an adapter returned was closed exactly once |
| SessionRegistry.NothingEntersAfterAdmission | bins/appd/src/remote.rs:1720-1724 | after admission closes the maps only shrink |
| SessionRegistry.DrainedMapsStayEmpty | bins/appd/src/remote.rs:1849-1894 | after the drain both maps stay empty |
| SessionRegistry.EverySessionIsWatched | bins/appd/src/remote.rs:1726-1798 | every registered session has a live reaper for its key |
| SessionRegistry.RegisterExactly | bins/appd/src/remote.rs:1525-1552 | with admission open and the key free the task's session becomes an entry opened and used now, with its reaper; otherwise its task must close it |
| SessionRegistry.TouchExactly | bins/appd/src/remote.rs:1663-1706 | a use sets that entry's last activity to now and changes nothing else |
| SessionRegistry.TakeOutExactly | bins/appd/src/remote.rs:1566-1588 | a close or a reap takes exactly that entry out and leaves its session to a task that must close it |
| SessionRegistry.AdmitTransferExactly | bins/appd/src/remote.rs:491-531 | a transfer gets its session exactly while admission is open |
| SessionRegistry.ConnectReturnsExactly | bins/appd/src/remote.rs:1506-1552 | an adapter's answer gives its task a session no one has seen before |
| SessionRegistry.CloseExactly | bins/appd/src/remote.rs:1566-1588 | a session that must be closed can be, once, and the end of its close returns one permit |
| SessionRegistry.EndsExactly | bins/appd/src/remote.rs:1708-1718 | a connect that fails and a transfer that ends give their permit back |
| SessionRegistry.RejectExactly | bins/appd/src/remote.rs:1506-1524 | a session the daemon cannot use is left to a task that must close it |
| SessionRegistry.DrainExactly | bins/appd/src/remote.rs:1849-1864 | shutdown closes admission and capacity, then empties the file map and the terminal map into its own hands |
| SessionRegistry.DrainCloseExactly | bins/appd/src/remote.rs:1864-1894 | each drained session is given to one closing task, which attempts its close and returns its permit |
| SessionRegistry.AcquireExactly | bins/appd/src/remote.rs:1708-1718 | in every reachable state a connect gets a permit exactly while admission is open and fewer than 32 are in use |
| SessionRegistry.ConnectRegisters | bins/appd/src/remote.rs:1506-1552 | the run of a connect that registers, and the map it leaves |
| SessionRegistry.EntriesFollowEvents | bins/appd/src/remote.rs:1530-1543 | over every run the times of an entry are the clock at the events that registered and last used it |
| SessionRegistry.SessionsStayUntil | bins/appd/src/remote.rs:1738-1894 | over every run a registered session leaves its map only by its close, the drain of that map, or a reap at least 15 minutes after its last use or 8 hours after its registration, by the events |
| SessionRegistry.ReapableExactly | bins/appd/src/remote.rs:1738-1847 | its own reaper can take a session exactly from then on, and an explicit close can at any time |
| SessionRegistry.DrainMakesProgress | bins/appd/src/remote.rs:1849-1894 | shutdown runs at most eight closes at once and is never stuck: a step that advances it is enabled until it has finished |
| SessionRegistry.DrainEnds | bins/appd/src/remote.rs:1849-1894 | whatever else runs, after the maps are drained shutdown takes at most 65 more steps |
| ProfileStore.RemoteProfileStore.Load | bins/appd/src/remote.rs:2761-2787 | absent, readable or corrupt, exactly as the row is |
| ProfileStore.RemoteProfileStore.IsReferenced | bins/appd/src/remote.rs:2829-2863 | a scan in any order answers "not referenced" exactly when all rows are readable, none jumps to the profile and no transfer uses it |
| ProfileStore.RemoteProfileStore.Upsert | bins/appd/src/remote.rs:2618-2698 | accepted exactly under the compare-and-swap and reference conditions; the table after it; each error has its cause |
| ProfileStore.AcceptedUpsertStores | bins/appd/src/remote.rs:2642-2698 | a creation stores revision 0, created and updated now; an update one revision on with its creation time kept; no other row changes |
| ProfileStore.OtherCommandsStore | bins/appd/src/remote.rs:2700-2747 | a delete removes exactly its row and a refused command changes nothing |
| ProfileStore.ReferencedKeepsProtocol | bins/appd/src/remote.rs:2628-2640 | a profile others jump through, or a transfer uses, keeps its protocol through every command |
| ProfileStore.RemoteProfileStore.Delete | bins/appd/src/remote.rs:2700-2747 | accepted exactly when unreferenced and at the given revision; one row goes; each error has its cause |
| ProfileStore.RevisionCountsUpserts | bins/appd/src/remote.rs:2618-2698 | from any row, while it is not deleted, the revision grows by its successful upserts and the creation time stays |
| ProfileStore.LifeOfProfile | bins/appd/src/remote.rs:2618-2747 | over any run, from the creating call until a delete, the revision is the number of successful upserts since that call, from 0, and the creation time is that call's clock reading |
| ProfileStore.RevisionOnlyGrows | bins/appd/src/remote.rs:2618-2747 | without a new creation, revisions never fall over any run |
| ProfileStore.AtMostOneWinner | bins/appd/src/remote.rs:2618-2747 | of the upserts and deletes that expect the same revision at most one succeeds |
| ProfileStore.RunKeepsWellFormed | bins/appd/src/remote.rs:2618-2698 | every stored revision fits its signed column, so the increment cannot overflow |
| ProfileStore.DeleteLeavesNoJump | bins/appd/src/remote.rs:2700-2747 | after a successful delete no remaining profile lists the deleted one as a jump |
| ProfileStore.JumpIntegrity | bins/appd/src/remote.rs:2829-2863 | a delete never breaks jump references, and an upsert keeps them exactly when its own jumps exist |
| ProfileStore.UpsertReadableExactly | crates/remote-core/src/profile.rs:382-390 | an accepted upsert leaves a readable row if and only if its clock reading is not before the creation time |
| ProfileStore.ClockStepBackStrandsProfile | bins/appd/src/remote.rs:2618-2698 | a concrete run in which two accepted upserts leave an unreadable row |
| ProfileStore.UnreadableRowStays | bins/appd/src/remote.rs:2801-2863 | an unreadable row blocks every delete and every protocol change and survives every command |
| ProfileStore.UnreadableRowIsForever | bins/appd/src/remote.rs:2801-2863 | over any run of commands that row stays and every delete fails |
| Paging.PageOfIsValid | crates/remote-core/src/profile.rs:413-440 | the first rows after the key pass the page check whenever every fetched row is readable |
| Paging.ListProfiles | bins/appd/src/remote.rs:2563-2605 | the first `limit` rows after the key with the right continuation, or Corrupt exactly when a fetched row, the one beyond the page included, is unreadable |
| Paging.WalkFromKey | bins/appd/src/remote.rs:2563-2605 | following `next_after` from any key succeeds if and only if every row above the key is readable, and then gives those rows in order |
| Paging.WalkIsComplete | bins/appd/src/remote.rs:2563-2605 | a full walk succeeds if and only if every row is readable, and then returns every profile exactly once in ascending order for every limit of at least 1 |
| Paging.UnreadableRowEndsWalks | bins/appd/src/remote.rs:2583-2593 | once a row is unreadable, after any run of commands every walk from below it, and every full walk, fails |
| Paging.WalkFromOffset | bins/appd/src/remote.rs:1249-1273 | following `next_offset` from a page boundary gives the rest of the listing or meets the 32-bit panic |
| Paging.DirectoryPageExactly | bins/appd/src/remote.rs:1249-1273 | a page is the window of at most `limit` entries at its offset, with the next offset exactly when entries are left |
| Paging.DirectoryWalkIsExact | bins/appd/src/remote.rs:1249-1273 | the walk reproduces the listing if and only if it is within the 32-bit reach |
| ProfileGate.EditKeepsTasks | bins/appd/src/remote.rs:1096-1160 | an edit that saw no reference strands no queued task |
| ProfileGate.StepKeepsInv | bins/appd/src/remote.rs:871-957 | each step of enqueue or edit under the gate keeps what its holder has read true |
| ProfileGate.QueuedTasksKeepTheirProfiles | bins/appd/src/remote.rs:871-957 | for every interleaving of enqueue, upsert and delete, each queued task's profile exists with the task's protocol |
| ProfileGate.EnqueueQueues | bins/appd/src/remote.rs:871-957 | an enqueue of a readable profile runs through and queues exactly one task with its protocol |
| ProfileGate.EnqueueNeedsProfile | bins/appd/src/remote.rs:871-957 | an enqueue of a missing or unreadable profile can only give up |
| ProfileGate.EditApplies | bins/appd/src/remote.rs:1096-1160 | an edit runs through and is applied with the true answer to whether the active queue uses its profile |
| ProfileGate.OtherStepsExactly | bins/appd/src/remote.rs:787-839 | starting the runner makes its queue the one consulted, and nothing else moves |
| UsageWorker.UsageTrackerWorker.Publish | bins/appd/src/usage.rs:1102-1121 | what is published is never Healthy without niri, session and checkpoint |
| UsageWorker.UsageTrackerWorker.PauseForLogindEdge | bins/appd/src/usage.rs:796-815 | the session is suspended at the edge's time; a failing clock or tracker is published as such |
| UsageWorker.UsageTrackerWorker.PauseForIdleEdge | bins/appd/src/usage.rs:828-846 | the same for an idle edge, which publishes only its failures |
| UsageWorker.UsageTrackerWorker.Refresh | bins/appd/src/usage.rs:704-780 | the worker after a refresh, and its publication: unreachable exactly when it ends in a tracker failure |
| UsageWorker.RefreshAvailableExactly | bins/appd/src/usage.rs:704-780 | exactly when the session is available after a refresh: both streams stay, the probe answers, and either clock and tracker enable it with no edge after the probe, or it was available and every edge and the enabling failed in clock or tracker |
| UsageWorker.RefreshCheckpointExactly | bins/appd/src/usage.rs:704-780 | the checkpoint is the enabling time, else that of the last edge taken, else unchanged |
| UsageWorker.RefreshStreamsExactly | bins/appd/src/usage.rs:704-780 | the logind stream is dropped exactly when a drain finds it lost; no other stream changes |
| UsageWorker.SuspendExactly | bins/appd/src/usage.rs:796-846 | an edge makes the session unavailable, at its time, unless the tracker fails |
| UsageWorker.PublicationExactly | bins/appd/src/usage.rs:1102-1121 | Healthy exactly with a niri snapshot, an available session and an idle stream |
| UsageWorker.PollIdleExactly | bins/appd/src/usage.rs:680-694 | a lost idle stream ends the session; after a change it is available exactly if the refresh enables it |
| UsageWorker.PollLogindExactly | bins/appd/src/usage.rs:669-678 | a lost or absent logind stream ends the session; after an edge it is available exactly if the refresh enables it |
| UsageWorker.TriesExactly | bins/appd/src/usage.rs:527-578 | a connect that succeeds is connected and refreshed, one that fails leaves the session unavailable |
| UsageWorker.UpdateExactly | bins/appd/src/usage.rs:600-623 | a focus change means a snapshot was seen, a lost stream that none is |
| UsageWorker.DrainTakesAll | bins/appd/src/usage.rs:641-665 | the drain at a checkpoint takes every waiting update |
| UsageWorker.CheckpointExactly | bins/appd/src/usage.rs:637-667 | a quiet checkpoint in which everything answers records its time; a niri stream lost in it is gone |
| UsageWorker.GoodTurnIsHealthy | bins/appd/src/usage.rs:519-635 | from any state one turn in which streams connect and everything answers ends Healthy with its checkpoint |
| UsageWorker.QuietTurnExactly | bins/appd/src/usage.rs:519-635 | a quiet turn changes only what its command and its due checkpoint record |
| UsageWorker.BreaksShow | bins/appd/src/usage.rs:519-635 | a stream that breaks in an otherwise quiet turn is gone at its end, and with it the session or the snapshot |
| UsageWorker.LateCommandIsTaken | bins/appd/src/usage.rs:624-633 | without niri a turn waits for a command instead and takes it |
| UsageWorker.LostStreamIsNotHealthy | bins/appd/src/usage.rs:519-635 | a turn that ends without one of the streams does not end Healthy |
| UsageWorker.UsageTrackerWorker.PollIdle | bins/appd/src/usage.rs:680-694 | effect of an idle poll on the worker, publication kept in step |
| UsageWorker.UsageTrackerWorker.PollLogind | bins/appd/src/usage.rs:669-678 | effect of a logind poll; an absent stream counts as lost |
| UsageWorker.UsageTrackerWorker.CheckpointNow | bins/appd/src/usage.rs:637-667 | polls, the waiting niri updates, then a refresh unless niri was lost |
| UsageWorker.UsageTrackerWorker.TakeTurn | bins/appd/src/usage.rs:519-635 | one turn of the loop, with publication and worker consistent afterwards and a good turn published |
| UsageWorker.UsageTrackerWorker.Run | bins/appd/src/usage.rs:519-858 | over every sequence of turns a published Healthy state has niri, both session streams and a checkpoint behind it |
| UsageWorker.RunKeepsWorkerInv | bins/appd/src/usage.rs:519-858 | over every sequence of turns an available session has its idle and logind streams and a checkpoint time |
| UsageSummary.HealthySummaryIsBacked | crates/domain/src/usage.rs:134-144 | a summary fails the healthy-coverage check if and only if it would be Healthy without the start time of tracking |
| UsageSummary.RunSummariesAreBacked | bins/appd/src/usage.rs:941-1068 | after any run, with the start time known, every summary passes the healthy-coverage check |
| UsageSummary.SummaryStatusExactly | bins/appd/src/usage.rs:975-1068 | a complete, gapless, untruncated summary has the published status, any other is Degraded |
| UsageSummary.CoverageNeedsStart | bins/appd/src/usage.rs:1078-1091 | coverage is unknown exactly without a start key |
| UsageSummary.BytesCompareAsNumbers | bins/appd/src/usage.rs:1078-1091 | on keys of one shape, comparing strings is comparing the numbers they write |
| UsageSummary.CoverageIsChronological | bins/appd/src/usage.rs:1078-1091 | with valid keys a bucket is not started, partial or complete exactly as its date is before, at or after the start |
| IpcFrame.WireBudget.ObservePayloadLen | crates/ipc/src/frame.rs:33-54 | charges the frame or names the limit; a refusal leaves the counters unchanged |
| IpcFrame.ChargeWithin | crates/ipc/src/frame.rs:33-54 | within the frame limit a frame of allowed size is never refused |
| IpcFrame.RefusedIsOversize | crates/ipc/src/frame.rs:33-54 | a refusal within the frame limit means a payload over 65,536 bytes |
| IpcFrame.ResponseBudgetsAreRoomy | crates/ipc/src/message.rs:31-34 | both response budgets have bytes for all the frames they count |
| IpcFrame.BudgetCountsExactly | crates/ipc/src/frame.rs:33-54 | any frames are all charged exactly when they are within the frame limit and their bytes with prefixes within the byte limit; the counters then say how many and how much |
| IpcFrame.ReadFrame | crates/ipc/src/frame.rs:108-137 | the payload at the head of the stream, or the first failing check in order; the budget charged exactly then |
| IpcFrame.WriteFrame | crates/ipc/src/frame.rs:150-172 | writes exactly the framed payload, or nothing for an empty or oversized one |
| IpcFrame.ReadWritten | crates/ipc/src/frame.rs:108-137 | a written payload within budget is read back, and any shorter stream is an early end |
| IpcFrame.BadSizesAreRefused | crates/ipc/src/frame.rs:118-129 | empty frames and frames over the payload limit are never read, whatever follows |
| IpcFrame.ReadIsTake | crates/ipc/src/frame.rs:108-137 | reading bytes frame by frame is taking the frames of the deframed stream |
| IpcFrame.DeframeWritten | crates/ipc/src/frame.rs:150-172 | the frames of written payloads are those payloads and the stream ends cleanly |
| LengthPrefix.StreamIsItsFrames | crates/ipc/src/frame.rs:108-137 | every byte stream is its complete frames followed by a leftover without one |
| LengthPrefix.PrefixIsBigEndian | crates/ipc/src/frame.rs:122 | the length prefix is most significant byte first |
| LengthPrefix.FramesAreUnique | crates/ipc/src/frame.rs:150-172 | and that decomposition is the only one |
| IpcStream.ReadResponse | crates/ipc/src/client.rs:1658-1672 | the first envelope of what is left, or the frame error |
| IpcStream.ReadStream | crates/ipc/src/client.rs:215-328 | the byte-level reader computes the reading of the deframed stream |
| IpcStream.ReadChunks | crates/ipc/src/client.rs:262-328 | the loop after Start, frame by frame, computes the rest of that reading |
| IpcStream.ReadAccepts | crates/ipc/src/client.rs:215-328 | every Start, accepted chunks, End stream with consecutive sequence numbers, one identity and end of file yields its value |
| IpcStream.ReadIsLegal | crates/ipc/src/client.rs:215-328 | a value is returned only for such a stream |
| IpcStream.ReadWithinLimits | crates/ipc/src/client.rs:1619-1656 | after Start at most the declared frames plus two are read, the frame limit never refuses, and the byte limit only at an oversized frame |
| IpcStream.ReadErrorsExplained | crates/ipc/src/client.rs:215-328 | a daemon error, trailing data, a missing terminal and invalid JSON are reported only for the frame and stream end that justify them |
| IpcOutcome.FirstFrameDecides | crates/ipc/src/client.rs:232-256 | what each first frame is reported as: an Error without identity is the daemon's exactly when the stream ends there and trailing data otherwise; every other first frame by its first fault |
| IpcOutcome.NextFrameDecides | crates/ipc/src/client.rs:262-327 | after Start and any accepted chunks the next frame decides: the daemon's error, the value or its refusal exactly at the end of the stream, every fault by its name, and a stream that stops as missing its terminal |
| NetworkStream.AcceptExactly | crates/ipc/src/client.rs:1097-1132 | a chunk is accepted exactly when the chunks so far still fit the declaration, interfaces before applications, and refused as invalid otherwise |
| NetworkStream.StartExactly | crates/ipc/src/client.rs:1536-1552 | a Start is accepted exactly with a consistent declaration of at most 256 interfaces, 1,024 applications and 128 frames |
| NetworkStream.YieldsExactly | crates/ipc/src/client.rs:1536-1580 | the chunk and end checks together accept exactly the honestly declared splits of a valid snapshot |
| NetworkStream.ReaderSound | crates/ipc/src/client.rs:1051-1171 | a snapshot is returned only for a stream that carries a split of it, all interface chunks first |
| NetworkStream.ReaderComplete | crates/ipc/src/client.rs:1051-1171 | every legal split of a valid snapshot is accepted and gives that snapshot back |
| NetworkStream.ReaderBounded | crates/ipc/src/client.rs:1619-1635 | accepted chunks never outnumber the declared data frames, which fit the frame limit |
| NetworkStream.RequestNetworkSnapshot | crates/ipc/src/client.rs:1051-1171 | the reader over bytes; never refused by the frame limit, and by the byte limit only at an oversized frame |
| TelemetryStream.YieldsExactly | crates/ipc/src/client.rs:1699-1745 | the telemetry checks accept exactly the honestly declared splits of up to 1,024 records |
| TelemetryStream.StartExactly | crates/ipc/src/client.rs:1699-1719 | a Start is accepted exactly with a consistent declaration of at most 1,024 records and 128 frames |
| TelemetryStream.ReaderSound | crates/ipc/src/client.rs:215-328 | a telemetry snapshot is returned only for a stream that carries a split of it, and is the concatenation |
| TelemetryStream.ReaderComplete | crates/ipc/src/client.rs:215-328 | every legal split is accepted and gives the snapshot back |
| TelemetryStream.RequestTelemetrySnapshot | crates/ipc/src/client.rs:215-328 | the telemetry reader over bytes, with the same limits |
| NetworkPlan.Select | crates/ipc/src/server.rs:2053-2082 | the longest run of at most 32 records all of whose prefixes fit a frame: they do, and one record more does not |
| IpcPlan.Encode | crates/ipc/src/server.rs:2359-2417 | succeeds exactly when the bodies fit the frame limit and each fits its frame; the byte limit never refuses; frame i carries body i at sequence i |
| NetworkPlan.Cut | crates/ipc/src/server.rs:2040-2115 | the parts are the records in order, each within a frame; it succeeds with full parts when every run fits |
| NetworkPlan.BuildPlan | crates/ipc/src/server.rs:1793-1924 | whatever plan is built, the client reads exactly the snapshot; a valid snapshot whose messages fit is never refused |
| NetworkPlan.PlanIsRead | crates/ipc/src/server.rs:1878-1924 | the plan of any split of a valid snapshot is read back as that snapshot |
| NetworkDelivery.Deliver | bins/appd/src/network.rs:499-504 | after any run, at any time, the client reads exactly the daemon's answer, and that answer is honest |
| Base64.DecodeEncode | crates/ipc/src/server.rs:1653-1666 | decoding an encoding gives the bytes back (section 4 of RFC 4648) |
| Base64.EncodeDecode | crates/ipc/src/client.rs:980-982 | a string decodes only when it is the encoding of what it decodes to |
| Base64.EncodedLength | crates/domain/src/notes.rs:12-13 | the encoded length is four for every three bytes begun |
| Base64.AlphabetIsStandard | crates/ipc/src/server.rs:1653-1666 | the symbols and their order are those of table 1 of RFC 4648 |
| Base64.GroupsAreBigEndian | crates/ipc/src/server.rs:1653-1666 | three bytes and their four symbols write the same 24-bit number |
| Base64.TestVectors | crates/ipc/src/server.rs:1653-1666 | test vectors of section 10 of RFC 4648 |
| NoteStream.Base64Fits | crates/domain/src/notes.rs:12-13 | the base64 of a chunk of at most 45,056 bytes has at most 60,076 characters, and a full chunk has exactly that |
| NoteStream.AcceptsPart | crates/ipc/src/client.rs:972-998 | the chunk of a part is accepted exactly when the parts so far still fit the declaration |
| NoteStream.AcceptedIsPart | crates/ipc/src/client.rs:972-998 | an accepted chunk is the encoding of a part at the offset where the earlier ones end |
| NoteStream.FinishExactly | crates/ipc/src/client.rs:999-1041 | the end checks yield exactly the declared output with its digest, length and kind |
| NoteStream.StartExactly | crates/ipc/src/client.rs:1448-1490 | a Start is accepted exactly when it declares the kind asked for, within its limit, with the frame count its length needs |
| NoteStream.ReaderSound | crates/ipc/src/client.rs:956-1043 | content is returned only from contiguous, non-empty chunks, exactly ceil(total/45056) of them, whose bytes in order are the content |
| NoteStream.ReaderComplete | crates/ipc/src/client.rs:956-1043 | every such stream is accepted and gives the content back |
| NoteStream.ReaderBounded | crates/ipc/src/client.rs:1448-1490 | bodies need at most 128 data frames and exports at most 598, so the frame limits never refuse |
| NoteStream.RequestContent | crates/ipc/src/client.rs:872-890 | the content reader over bytes, under the budget of its command |
| NoteStream.CutContent | crates/ipc/src/server.rs:1650-1681 | the server's loop produces the canonical chunks with their offsets |
| NoteStream.CutIsCanonical | crates/ipc/src/server.rs:1650-1681 | those chunks are well-sized, as many as the length needs, and concatenate to the content |
| NoteStream.CanonicalStreamIsRead | crates/ipc/src/client.rs:956-1043 | the canonical chunking of any body up to 4 MiB or export up to 26,943,488 bytes, in frames within the payload limit, is accepted and gives it back |
| NotePlan.BuildContentPlan | crates/ipc/src/server.rs:1597-1711 | a plan is built exactly when the output passes its checks and each message fits its frame, and the client reads it as that output if and only if it asked for it |
| NotePlan.ContentPlanIsRead | crates/ipc/src/client.rs:956-1043 | the encoded plan of a sendable output is read as that output exactly by the command that asked for it |
| HelperFraming.ReadFrame | crates/network-helper-protocol/src/lib.rs:320-346 | the frame at the head of the pipe, None at its end, or the matching typed error |
| HelperFraming.WriteFrame | crates/network-helper-protocol/src/lib.rs:348-356 | writes exactly the framed payload of 1 to 524,288 bytes, or nothing |
| HelperFraming.RoundTrip | crates/network-helper-protocol/src/lib.rs:320-356 | writing any list of sized payloads and reading to the end yields that list and then None |
| HelperFraming.ReadsWereWritten | crates/network-helper-protocol/src/lib.rs:320-346 | on any bytes, what is read was framed there, in order, from the start |
| HelperFraming.CompleteIsMaximal | crates/network-helper-protocol/src/lib.rs:320-346 | the number of whole frames in a cut stream is the largest that fits |
| HelperFraming.Truncation | crates/network-helper-protocol/src/lib.rs:320-346 | a stream cut anywhere yields the frames that fit and then None, TruncatedLength or TruncatedPayload by where the cut is |
| HelperFraming.WriteFdAll | bins/appd/src/network.rs:396-418 | partial writes in any schedule put a prefix on the pipe, all of it on success; a failure is that of the first transfer that failed |
| HelperFraming.ReadFdExact | bins/appd/src/network.rs:420-446 | partial reads in any schedule return exactly the next bytes; end of file only when there are too few, other failures that of the first transfer that failed |
| HelperFraming.WriteHelperFrame | bins/appd/src/network.rs:371-382 | on success exactly the helper codec's frame is on the pipe; one size error for empty and oversized |
| HelperFraming.ReadHelperFrame | bins/appd/src/network.rs:384-394 | agrees with the helper codec on payload, rest, end of file and size errors, and succeeds exactly with it while bytes flow |
| HelperProtocol.CheckRequest | crates/network-helper-protocol/src/lib.rs:71-91 | the loop over a set of seen identifiers accepts exactly the valid requests |
| HelperProtocol.CheckRecords | crates/network-helper-protocol/src/lib.rs:192-201 | the duplicate check accepts exactly records with distinct non-zero identifiers |
| HelperProtocol.ServeStdio | bins/network-helper/src/main.rs:55-84 | the serve loop over the two pipes computes the frame-by-frame service of its input |
| HelperProtocol.OneReplyPerRequest | bins/network-helper/src/main.rs:55-84 | on any input the output is one framed answer per complete request, in order, up to the first that cannot be answered: the collector's result under the request's generation, or a refusal under generation zero; success exactly when all were answered and the input ended at a boundary |
| HelperSession.KeysAreBindings | bins/appd/src/network.rs:156-159 | the key table of a request holds exactly its bindings |
| HelperSession.LabelRecords | bins/appd/src/network.rs:174-187 | the record loop labels every counter, or fails on one that was not requested |
| HelperSession.LabelledLabels | bins/appd/src/network.rs:174-187 | every labelled record carries the key bound to its cgroup in the request |
| HelperSession.LabelledExactly | bins/appd/src/network.rs:174-187 | the records are labelled exactly when each is of a cgroup the request binds |
| HelperSession.BeginExactly | bins/appd/src/network.rs:146-164 | a collect draws the next generation and leaves exactly its request on its way, or drops the session |
| HelperSession.FailuresDropTheSession | bins/appd/src/network.rs:125-151 | unreadable bindings and giving up on a reply drop the session and return nothing |
| HelperSession.ComputeExactly | bins/network-helper/src/main.rs:72-84 | a helper answers under its request's generation, or dies of a reply it cannot write |
| HelperSession.ReceiveExactly | bins/appd/src/network.rs:165-189 | in every reachable state a reply is returned exactly if it is a snapshot of requested cgroups only; otherwise the session is dropped |
| HelperSession.GoodCollectReturns | bins/appd/src/network.rs:146-189 | from any idle state a collect in which nothing fails runs and returns the labelled counters |
| HelperSession.RunKeepsInv | bins/appd/src/network.rs:110-189 | every interleaving of collector, helper, crashes and give-ups keeps the session and history invariants |
| HelperSession.ReturnsAreBacked | bins/appd/src/network.rs:146-189 | every returned list was computed by the helper from its own request in its own session, under that request's keys |
| HelperSession.ReturnsAreWellFormed | crates/network-helper-protocol/src/lib.rs:174-201 | returned lists are bounded, of distinct cgroups, with a capture time, and empty where the helper reports no support |
| HelperSession.ReturnsAreCurrent | bins/appd/src/network.rs:146-189 | a return is for the newest generation, over the live session, and leaves that session quiet |
| HelperSession.IdleSessionIsQuiet | bins/appd/src/network.rs:110-139 | between collects a live session has no unread frame, no unanswered one and nothing being computed |
| HelperSession.GenerationsGrow | bins/appd/src/network.rs:151-155 | returned generations strictly grow |
| HelperSession.NoMismatchNoZeroReply | bins/appd/src/network.rs:165-169 | with a helper that follows the protocol the mismatch branch and the generation-zero reply are never reached |
| NetworkDomain.Unavailable | crates/domain/src/network.rs:149-186 | the unavailable snapshot is valid and carries no traffic |
| NetworkDomain.ValidateExactly | crates/domain/src/network.rs:188-251 | what a valid snapshot says, rule by rule |
| NetworkFreshness.CheckedTotals | bins/appd/src/network.rs:825-833 | both totals, or nothing when one does not fit 64 bits |
| NetworkFreshness.ProjectApplications | bins/appd/src/network.rs:822-844 | the shares of all applications, or nothing when a 64-bit total overflows |
| NetworkFreshness.SharesArePercentages | bins/appd/src/network.rs:846-848 | every share is between 0 and 100 |
| NetworkFreshness.SharesAddUp | bins/appd/src/network.rs:822-848 | in each direction with traffic the shares add up to exactly 100 |
| NetworkFreshness.RecordsKeepTheirCounts | bins/appd/src/network.rs:822-848 | each projected record keeps its key and counts, and each share is that count in percent of its total |
| NetworkFreshness.ProjectionValidExactly | bins/appd/src/network.rs:729-820 | a projected sample passes validation if and only if the sample's names, keys, counts and rates are in range |
| NetworkFreshness.StoreFollowsRun | bins/appd/src/network.rs:604-648 | after any run the stored state carries the facts of the last publishable sample, count by count, with its labels or those of the newest failure |
| NetworkFreshness.PublishedShows | bins/appd/src/network.rs:729-820 | a publishable sample is published with its own totals in every class, interfaces, records, rates, coverage, times, interval and labels |
| NetworkFreshness.AnswersAreHonest | bins/appd/src/network.rs:688-727 | every answer is valid, labelled fresh or healthy exactly within 3 s of an undisturbed last success and then with that sample's labels, and carries facts exactly within 10 s of it, that sample's facts count by count |
| NetworkFreshness.AnswersAreExplained | bins/appd/src/network.rs:688-727 | every answer's labels by age: within 3 s those of the success or of the newest failure; up to 10 s the system label names the newest failure or staleness and a supported per-application label says stale; then both say expired; unsupported stays unsupported |
| NetworkFreshness.NetworkSupervisor.constructor | bins/appd/src/network.rs:522-532 | the first state: unavailable, nothing sampled |
| NetworkFreshness.NetworkSupervisor.PublishFailure | bins/appd/src/network.rs:631-648 | the stored state after a failed round |
| NetworkFreshness.NetworkSupervisor.PublishSuccess | bins/appd/src/network.rs:604-629 | the stored state after a sampled round, a failed one when validation refuses it |

## Left out

- The desktop UI (`apps/desktop-ui`), sockets, polling, child processes, peer credentials, file modes, SQLite internals and real deadlines: operating-system behaviour.
- The adapter crates, `transfers`, `notes`, `usage`, `telemetry` and `network`: they appear only as the answers their callers act on.
- `bins/appd/src/speedtest.rs`, `bins/appd/src/telemetry.rs` and `bins/appd/src/main.rs`: their logic would add easier members only.
- The usage summary, transfer page and notes page readers: the same loop as `IpcStream`, with simpler checks than the three readers modelled.
- The telemetry server plan: the same cutting loop as `NetworkPlan`.
- Async cancellation: every awaited future runs to completion.
- Reconnect and checkpoint timers of the usage worker: reduced to inputs that say what is due, so no bound on a reconnect delay is claimed.
- The database side of a usage interrupt: an interrupt sent before a statement starts may have no effect in SQLite; the model says only when it is sent.
- Capability catalogues, reason texts and error-code tables: finite case tables.
- JSON itself: a message is its parsed value with the length of its encoding, and parsing an encoded message is taken to give it back.
- UsageQuerySlot.TokensAreUnique: not claimed once the 64-bit token counter wraps; drawing a token is a step only below the wrap.
- SessionRegistry.QuiescenceClosedEverySession: a session handed to the transfer executor is closed there, outside the model, and is counted as never closed here.
- SessionRegistry.RunKeepsInv: a reaper's spawn is part of the insertion it follows, and a reaper that waits is modelled by when it may act.
- ProfileGate.QueuedTasksKeepTheirProfiles: covers the phases up to and including the active runner; while the runner shuts down the reference snapshot is older than the queue, and nothing is claimed.
- HelperSession.RunKeepsInv: the collector's own capability label, set from each reply or failure, is not part of the state.
- HelperSession.ReturnsAreBacked: pipes carry whole messages; a partial frame exists only between a failed write or read and the drop of its session, so it is never read.
- HelperProtocol.ServeStdio: the collector is a function of the request, so state it keeps between requests is not modelled.
- NetworkFreshness.SharesAddUp: over exact reals; the source rounds to floating point.
- NoteStream.RequestContent: mutation results and note pages, the other branches of the notes response, are not modelled.
