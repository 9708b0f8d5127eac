# Verified model of the streaming client's stateful core

This project states in Dafny what the most stateful parts of the client do and proves what they are there for:

- how decoded frames travel from the network thread through a pending slot and a small overflow deque into libplacebo's display queue, from two threads at once (`gui/src/qmlmainwindow.cpp`);
- the update/render handshake, the deferred-swap mailbox, the reset generations and the pacing arithmetic around it (same file);
- the controller-mapping editor with its two maps that must stay inverse, and the text it reads and writes (`gui/src/qmlbackend.cpp`);
- certificate-chain recovery with its buffer ownership, and the issuer cache behind it (`lib/src/aia.c`);
- the CBOR decoder and the single-use grants of the sign-in mock (`android/psn-mock/psn_mock.py`).

`dafny verify dfyconfig.toml` checks everything.

## How it is laid out

Code that changes fields in place is a class whose methods are the source's critical sections; each method is proved against a pure step function, and the laws are proved about runs of those steps.

| files | content |
|---|---|
| `Frames` | timestamps, tolerance, a stored frame |
| `PendingSpec`, `PendingStore` | the pending store: its meaning on one sequence, and slot, deque and flags as they are kept |
| `Handoff`, `HandoffDepth`, `HandoffOrder`, `HandoffReplay`, `HandoffSections` | the two-thread hand-off as a machine of critical sections, its bounds, its order and where that ends, and the sections as methods |
| `RenderHandshake`, `HandshakeUpdates`, `HandshakeSession`, `HandshakeSections` | schedule flags, posted calls, deferred-swap mailbox, direct slot; requests for an update; session starts; the steps as methods |
| `ResetProtocol`, `ResetThrottle`, `ResetSeeds`, `ResetSections` | reset requests and capture generations; which resets are put off and retried; the captured frame; whole requests and resets |
| `Pacing` | targets, lead, averages, the pacer's sleep |
| `MappingText`, `MappingEditor`, `MappingReset`, `MappingSession` | mapping text, edits, the comparison with the reported text, the dialog's state |
| `AiaRecovery`, `IssuerCache` | the issuer walk with its buffers, the cached text with its generation |
| `Cbor`, `CborEncodings`, `CborAccepted`, `CborValues` | the decoder, the encodings of section 3 of RFC 8949, and both directions between them |
| `Grants` | authorization codes and passkey challenges |

## What is assumed of the outside

- Threads interleave between critical sections and between separate accesses to a shared flag, where "Left out" does not name a group of accesses; inside one critical section they do not. `Handoff` is finer than "one atomic `presentFrame`": the rollback check, the read of the submission flag, the read of the schedule flags, the decision, the promoted push, the store and the cleanup are separate steps.
- libplacebo's queue is a sequence that the render thread consumes from the front by any amount.
- Timestamps are reals with the code's tolerance of 1e-6 s. Microseconds are whole numbers. The clock never goes back; a sleep takes at least as long as asked, and how late it and a clock reading can be is a parameter.
- The depth limit is constant during a run and at least 2, which both branches of `effectiveQueueDepthLimit` give.
- UTF-8 decoding, chain verification, the issuer named by a certificate, each network answer, memory exhaustion, `fread`, random tokens, clock readings and the scenario named by an account are parameters.
- A map is visited in some order that lists every key once; `QMapIterator`'s ascending order is one of them.

## What turned out false

- **A replayed frame can be pushed twice** (`gui/src/qmlmainwindow.cpp:3303-3311`, `4339-4390`, `3139-3262`). The same frame is captured for a reset and then stored as pending. If the reset replays it afterwards, the copy keeps waiting (`StoredAndCaptured`); if the reset replays it in between, the copy is stored afterwards (`HeldAndCaptured`); either way a later promotion pushes it without a stale check. The same happens on the path that prunes nothing: a reset with neither a captured nor a pending frame replays the kept frame (`4372-4390`), which may have been stored meanwhile (`KeptAndStored`). `ReplayOrderIff` gives the exact condition for both paths, every outcome of the submission and every state of the GUI thread.
- **A kept frame can be pushed twice** (`gui/src/qmlmainwindow.cpp:4125-4170`, `6709-6721`). `enqueueKeptFrame` has no stale check, and the kept frame is usually one that was pushed. `ShownAndKept` is a run without any reset; `KeptOrderIff` gives the exact condition. `RunOrdered` and `PushedInOrder` carry both exact conditions as hypotheses on replayed and kept frames.
- **A session start can break the deferred-swap handshake** (`gui/src/qmlmainwindow.cpp:5097-5151`). It clears the in-flight flag without waiting for the swap thread. `SessionStartIff` shows that this is harmless if and only if no deferred swap is in flight, and `StartDuringSwap` reaches one that is.
- **A reset does not always replay the newest frame offered under it** (`gui/src/qmlmainwindow.cpp:4347-4353`). A replay frees the captured frame even if it was captured for the next reset. `OlderFrameIsReplayed` is such a run, with fresh generations throughout; `NewestIffKeeps` gives the exact condition at the replay, and `RisingOffersReplayNewest` shows that frames offered in order do no harm.
- **Reset generations are not always fresh** (`gui/src/qmlmainwindow.cpp:3390-3475`). If a reset retires its generation while a request that has loaded it is about to publish it again, or retires one that was published after the reset was counted, a later reset executes under the same number. `FreshIffClean` shows that freshness in all clean continuations holds if and only if the reset retires cleanly, a condition on the numbers at that moment; `OvertakenRequestExists` gives a run that reaches an unclean one, and `SerializedIsClean` shows that requests and resets that do not overlap never do.
- **The two mapping maps are not inverse for every text** (`gui/src/qmlbackend.cpp:2077-2206`). `ParsedInverseIff`: a parsed mapping is inverse exactly when no input occurs twice. `InverseForeverIff`: it stays inverse under all edits exactly when nothing is listed under an empty button name, because an empty owner counts as none.
- **Setting the original mapping back by hand is not recognised** (`gui/src/qmlbackend.cpp:2276-2288`). The saved text has no guid in front, the remembered original has. `ManualResetNeverNoticed` shows it for every reported text and every type without a comma, and `Session.Apply` saves such a mapping as the user's own. Only a controller type with a comma, used where the text says `*`, can be recognised, exactly as `ManualResetNoticedIff` says.
- **The CBOR decoder also reads what is not the encoded value** (`android/psn-mock/psn_mock.py:101-135`). Items of major type 7 are read by their argument alone, so undefined, unassigned simple values and floats come back as null or even as false or true; `MajorSevenIff` says exactly which items are read as what they stand for. An argument or string cut off by the end of the data is read from the bytes that are there; `TruncatedIntegerIff` says when the number is still right. `DecodesIff` is therefore stated for results that do not lie past the end.

## Model

| member | source | states |
|---|---|---|
| PendingStores.PendingStore.StorePendingFrame | gui/src/qmlmainwindow.cpp:3578-3737 | takes ownership; slot, deque, counter and freed frames end as the store of one sequence says, and the two published flags rise only for an accepted frame |
| PendingStores.PendingStore.DrainAndPlace | gui/src/qmlmainwindow.cpp:3601-3620 | without a deque, what it still holds is freed and counted first |
| PendingStores.PendingStore.InsertOverflow | gui/src/qmlmainwindow.cpp:3957-3963 | the scan inserts behind every entry that is not later |
| PendingStores.PendingStore.PromoteFromOverflow | gui/src/qmlmainwindow.cpp:3965-3990 | an empty slot is refilled from the deque's front and the whole sequence stays the same |
| PendingStores.PendingStore.TakePendingFrame | gui/src/qmlmainwindow.cpp:3992-4018 | hands out the head of the sequence, never frees it, and publishes whether a frame still waits |
| PendingStores.PendingStore.DropPendingFrame | gui/src/qmlmainwindow.cpp:4020-4035 | frees the head uncounted and refills the slot |
| PendingStores.PendingStore.DropUpTo | gui/src/qmlmainwindow.cpp:3317-3352 | after a direct push, frees and counts exactly the waiting frames that are not later |
| PendingStores.PendingStore.PrunePendingFramesBefore | gui/src/qmlmainwindow.cpp:3867-3920 | a rollback frees and counts the stale slot and the stale front of the deque, and nothing else |
| PendingStores.PendingStore.ClearPendingFrameState | gui/src/qmlmainwindow.cpp:3845-3865 | everything is freed uncounted and every flag cleared |
| PendingStores.PendingStore.NewestPendingFrame | gui/src/qmlmainwindow.cpp:3922-3955 | the frame chosen for a seed is the last of a sorted sequence |
| PendingSpec.StoreRefines | gui/src/qmlmainwindow.cpp:3601-3693 | on a sorted sequence the slot-and-deque store is: append, replace a lone warm-up, reject a stale frame, evict the second oldest of three, or replace the only one without a deque |
| PendingSpec.InsertIsAppend | gui/src/qmlmainwindow.cpp:3957-3963 | a sorted insert of the latest frame is an append |
| PendingSpec.StoreKeepsDiscipline | gui/src/qmlmainwindow.cpp:3601-3693 | a store keeps the sequence sorted with gaps above the tolerance, a warm-up alone, and within three frames |
| PendingSpec.PruneIsFilter | gui/src/qmlmainwindow.cpp:3867-3920 | pruning slot and deque apart is one filter by the cutoff, which removes a prefix and keeps a sorted rest without stale frames |
| PendingSpec.PruneKeepsExactly | gui/src/qmlmainwindow.cpp:3867-3920 | what a rollback keeps are exactly the real frames that are not before it by more than the tolerance |
| PendingSpec.RunUpToIsFilter | gui/src/qmlmainwindow.cpp:3317-3352 | what a direct push supersedes is exactly the frames not later than it |
| PendingSpec.RunStaysDisciplined | gui/src/qmlmainwindow.cpp:3578-4035 | over every run of store operations the sequence stays sorted, gapped and within its bound |
| PendingSpec.StoreConserves | gui/src/qmlmainwindow.cpp:3601-3693 | whatever the timestamps, a store neither loses nor duplicates a frame |
| PendingSpec.StoreCounts | gui/src/qmlmainwindow.cpp:3601-3693 | whatever the timestamps, every frame a store does not keep waiting raises the drop counter, except a warm-up that gives way to a real frame |
| PendingSpec.RunConserves | gui/src/qmlmainwindow.cpp:3578-4035 | over every run each frame handed in is held, handed out or freed as often as it came, and the drop counter is the number of counted frees |
| PendingSpec.ExactlyOnePlace | gui/src/qmlmainwindow.cpp:3578-4035 | a frame handed in once is in exactly one of those places, once |
| HandoffDepth.RunBounded | gui/src/qmlmainwindow.cpp:3139-3264 | on every run the display queue stays within its limit, the store within three frames, and the newest-pushed mark bounds every real timestamp pushed since the last reset |
| HandoffDepth.SubmissionIsLater | gui/src/qmlmainwindow.cpp:4195-4262 | a submission drops a stale frame, hands a frame back when the queue is full, or pushes it more than the tolerance after every real frame pushed since the last reset |
| HandoffDepth.DecisionIff | gui/src/qmlmainwindow.cpp:3139-3187 | in every reachable state: exactly when the decision pushes, promotes or keeps, what each does to queue and store, and that a frame which finds nothing rendering decides while the render thread is outside |
| HandoffDepth.PromotionGoesThrough | gui/src/qmlmainwindow.cpp:3234-3265 | after a promotion only its push can come next, on either thread: the waiting frame moves to the end of the queue, finds room there, and the new frame is stored |
| HandoffOrder.RunOrdered | gui/src/qmlmainwindow.cpp:3104-3315 | the order invariant of both threads is kept in every interleaving, queue resets included, in which delivered timestamps rise and replayed and kept frames meet the conditions that `ReplayOrderIff` and `KeptOrderIff` show to be exact |
| HandoffOrder.PushedInOrder | gui/src/qmlmainwindow.cpp:3104-3315 | under the same hypotheses, each of them needed, the timestamps pushed since the last reset rise by more than the tolerance and are a subsequence of those delivered |
| HandoffOrder.SessionInOrder | gui/src/qmlmainwindow.cpp:4392-4456 | from the start of a session, up to the first executed reset, replayed or kept frame, no rollback discards a pushed real frame, so the order holds for the whole run |
| HandoffReplay.ReplayOrderIff | gui/src/qmlmainwindow.cpp:4339-4390 | after a delivered frame is replayed, captured or kept, pruned for or not, whatever the GUI thread is doing, the order holds in every continuation if and only if the frame is stale and dropped, or the frame in the GUI thread's hands is later and so is every frame that can still be promoted, except that nothing is asked of those when the queue is full and the frame itself goes back to wait |
| HandoffReplay.ReplayOvertaken | gui/src/qmlmainwindow.cpp:3139-3262 | otherwise a continuation pushes such a frame behind the replayed one |
| HandoffReplay.PushBreaks | gui/src/qmlmainwindow.cpp:4208-4262 | a submission that pushes, with or without a rollback, before a frame that can still be pushed |
| HandoffReplay.DeferralBreaks | gui/src/qmlmainwindow.cpp:4264-4282 | a submission that goes back to wait while the GUI thread holds the same timestamp |
| HandoffReplay.StoredAndCaptured | gui/src/qmlmainwindow.cpp:3303-3311 | a run in which the frame is captured for a reset and waits as pending when it is replayed |
| HandoffReplay.HeldAndCaptured | gui/src/qmlmainwindow.cpp:3303-3307 | a run in which the frame is captured and not stored yet when it is replayed |
| HandoffReplay.RestingBreaks | gui/src/qmlmainwindow.cpp:3139-3262 | whatever the GUI thread is doing, a frame that can still be pushed and is not later than the last one pushed breaks the order in some continuation |
| HandoffReplay.KeptOrderIff | gui/src/qmlmainwindow.cpp:4125-4170 | after a kept frame is pushed again, the order holds in every continuation if and only if it lies after everything pushed and before every frame that can still be pushed |
| HandoffReplay.KeptAndStored | gui/src/qmlmainwindow.cpp:4372-4390 | a run in which a frame is stored and kept while a reset that found nothing to replay holds the queue, and the reset then replays it |
| HandoffReplay.ShownAndKept | gui/src/qmlmainwindow.cpp:6709-6721 | a run in which the frame that was pushed and shown is pushed again when the queue is empty |
| HandoffSections.Window.CheckRollback | gui/src/qmlmainwindow.cpp:3074-3086 | a frame before the origin, or the first one, empties the queue, restarts the timeline and prunes the store; any other changes nothing |
| HandoffSections.Window.DecideFrame | gui/src/qmlmainwindow.cpp:3139-3187 | the new frame is appended to the queue if and only if no frame waits or is being submitted and there is room; the oldest waiting frame is promoted if and only if nothing renders and there is room; else queue and store stay and the frame is kept |
| HandoffSections.Window.PushPromotedFrame | gui/src/qmlmainwindow.cpp:3234-3265 | the promoted frame enters the queue and raises the newest-pushed mark |
| HandoffSections.Window.KeepFrame | gui/src/qmlmainwindow.cpp:3301-3311 | the frame goes to the pending store |
| HandoffSections.Window.DropSuperseded | gui/src/qmlmainwindow.cpp:3317-3352 | after a direct push the superseded waiting frames go |
| HandoffSections.Window.TakeForSubmission | gui/src/qmlmainwindow.cpp:4392-4406 | the submission flag covers the frame from before it leaves the store |
| HandoffSections.Window.SubmitFrame | gui/src/qmlmainwindow.cpp:4195-4262 | a stale frame is dropped; else a frame behind the origin empties the queue, and the frame is appended if there is room and handed back if not, a warm-up either way |
| HandoffSections.Window.StoreDeferredFrame | gui/src/qmlmainwindow.cpp:4264-4282 | a frame that found the queue full returns to the store |
| HandoffSections.Window.FinishSubmission | gui/src/qmlmainwindow.cpp:4450-4455 | the submission flag falls only after the frame was pushed, dropped or stored again |
| HandoffSections.Window.ResetDisplayQueue | gui/src/qmlmainwindow.cpp:3418-3437 | a reset empties the queue and forgets the newest mark, and the timeline unless it is kept |
| HandoffSections.Window.ChangeSession | gui/src/qmlmainwindow.cpp:5084-5160 | a session change clears store, queue and timeline |
| RenderHandshake.NoLostWakeup | gui/src/qmlmainwindow.cpp:5320-5392 | in every reachable state a waiting direct frame has something left that will look at it |
| RenderHandshake.WaitingFrameIsSwappedOut | gui/src/qmlmainwindow.cpp:6484-6520 | from every reachable state the three threads can always step while a frame waits, and within an explicit number of steps one of them swaps it out |
| HandshakeUpdates.NoForgottenUpdate | gui/src/qmlmainwindow.cpp:5320-5344 | in every reachable state a request for an update that no render has started after has a due render, the pending mark, a posted call, or a deferred swap that will post |
| HandshakeUpdates.UpdateIsRendered | gui/src/qmlmainwindow.cpp:6484-6513 | from every such state the three threads can always step, and within an explicit number of steps, a missing swapchain included, a render starts |
| RenderHandshake.DeferredSwapHandshake | gui/src/qmlmainwindow.cpp:493-600 | the one-task mailbox is never overwritten, no render passes the in-flight check while a submit or swap is unfinished, and a blocked drain has work to wait for |
| HandshakeSections.DeferredSwapThread.Enqueue | gui/src/qmlmainwindow.cpp:501-511 | hands a swap task over and wakes a sleeping thread |
| HandshakeSections.DeferredSwapThread.WaitForTask | gui/src/qmlmainwindow.cpp:542-553 | takes a waiting swap task and becomes active, or sleeps |
| HandshakeSections.DeferredSwapThread.EndTask | gui/src/qmlmainwindow.cpp:564-569 | becomes inactive and releases drainers unless a task came meanwhile |
| HandshakeSections.DeferredSwapThread.ClearFlag | gui/src/qmlmainwindow.cpp:570-574 | clears the in-flight flag unless a task came meanwhile |
| HandshakeSession.SessionStartIff | gui/src/qmlmainwindow.cpp:5097-5151 | a session start, which clears the in-flight flag without waiting, keeps the deferred-swap handshake in every continuation if and only if no deferred swap is in flight |
| HandshakeSession.BusyStart | gui/src/qmlmainwindow.cpp:5097-5151 | otherwise a continuation lets a render pass its check during the swap, from every position of the render thread |
| HandshakeSession.StartDuringSwap | gui/src/qmlmainwindow.cpp:5097-5151 | a run that reaches such a start |
| HandshakeSections.DeferredSwapThread.Drain | gui/src/qmlmainwindow.cpp:525-530 | returns exactly when no task waits and none is active, and waits otherwise |
| HandshakeSections.Scheduler.ScheduleUpdate | gui/src/qmlmainwindow.cpp:5351-5392 | posts exactly one update if forced or none is pending, and nothing otherwise |
| HandshakeSections.Scheduler.UpdateNow | gui/src/qmlmainwindow.cpp:5320-5344 | starts a render, or, if one is scheduled, leaves the mark by which it asks for another |
| HandshakeSections.Scheduler.PresentDirect | gui/src/qmlmainwindow.cpp:2991-3003 | the frame replaces the one that waits and an update is asked for |
| HandshakeSections.Scheduler.RunPostedUpdate | gui/src/qmlmainwindow.cpp:5384-5391 | the posted half clears the pending mark and then updates |
| HandshakeSections.Scheduler.RunPostedSwapDone | gui/src/qmlmainwindow.cpp:579-586 | a finished swap asks for an update |
| HandshakeSections.Scheduler.RunPostedFinalize | gui/src/qmlmainwindow.cpp:6501-6509 | does nothing while a deferred swap is in flight, else asks for an update |
| HandshakeSections.Scheduler.FinalizeRender | gui/src/qmlmainwindow.cpp:6484-6492 | releases the schedule flag and takes the pending one |
| HandshakeSections.Scheduler.MayCheckBacklog | gui/src/qmlmainwindow.cpp:5478-5485 | the backlog is looked at only if no deferred swap is in flight |
| HandshakeSections.Scheduler.PostIfBacklog | gui/src/qmlmainwindow.cpp:5483-5484 | from the render thread, a waiting frame posts a schedule request |
| HandshakeSections.Scheduler.EndRender | gui/src/qmlmainwindow.cpp:6484-6513 | from the finalize to the end of the render, the state stays consistent, so a waiting frame keeps a wake-up |
| HandshakeSections.Scheduler.CheckOnce | gui/src/qmlmainwindow.cpp:5478-5485 | one backlog check, flag and slot read apart, keeps the state consistent |
| HandshakeSections.Scheduler.MayStartFrame | gui/src/qmlmainwindow.cpp:6514-6520 | a render goes on only if no deferred swap is in flight |
| HandshakeSections.Scheduler.SwapOutDirect | gui/src/qmlmainwindow.cpp:6660-6668 | the slot is emptied into the render |
| HandshakeSections.Scheduler.EnqueueDeferredSwap | gui/src/qmlmainwindow.cpp:5603-5626 | the in-flight flag rises before the swap task is handed over |
| HandshakeSections.Scheduler.AnnounceDone | gui/src/qmlmainwindow.cpp:575-588 | the finished swap posts to the GUI thread unless a task came meanwhile |
| ResetProtocol.ResetGenerationsAreFresh | gui/src/qmlmainwindow.cpp:3390-3475 | no two executed resets share a non-zero generation, through throttled retries and session changes, in every run whose resets retire cleanly |
| ResetProtocol.FreshIffClean | gui/src/qmlmainwindow.cpp:3439-3443 | generations stay fresh in all clean continuations of a reset if and only if it retires cleanly |
| ResetProtocol.UncleanRepeats | gui/src/qmlmainwindow.cpp:3456-3475 | after an unclean one, a continuation executes a generation twice |
| ResetProtocol.OvertakenRequestExists | gui/src/qmlmainwindow.cpp:3456-3475 | a run that reaches an unclean reset |
| ResetProtocol.SerializedIsClean | gui/src/qmlmainwindow.cpp:3390-3475 | requests and resets that do not overlap retire cleanly |
| ResetThrottle.PutOffIff | gui/src/qmlmainwindow.cpp:3396-3413 | over every run, a reset is put off if and only if nobody asked for the timeline to be kept since the last executed one, and some reset was executed less than 100 ms before (one at clock time zero counts as none, as in the code) |
| ResetThrottle.ResetsSpaced | gui/src/qmlmainwindow.cpp:3396-3415 | two executed resets are at least 100 ms apart unless the later one was to keep the timeline |
| ResetThrottle.PutOffLeavesTimer | gui/src/qmlmainwindow.cpp:3402-3412 | a put-off reset leaves one timer under its own number, which runs out 100 ms after the last executed reset |
| ResetThrottle.RunsUntilFired | gui/src/qmlmainwindow.cpp:3407-3411 | over every run, that timer runs until it fires once, and never again |
| ResetThrottle.RetryAsksIff | gui/src/qmlmainwindow.cpp:3407-3411 | when it fires it asks for the reset again if and only if no other reset was begun since |
| ResetThrottle.NextIsExecuted | gui/src/qmlmainwindow.cpp:3399-3416 | no reset is put off twice: the next one begun when the timer has run out is executed |
| ResetSeeds.ReplayedSeedIsNewest | gui/src/qmlmainwindow.cpp:4339-4370 | a replayed frame was captured under the reset that replays it and no earlier one, and is the newest offered under it, in every run whose resets retire cleanly and whose replays keep the capture, with requests and resets overlapping |
| ResetSeeds.NewestIffKeeps | gui/src/qmlmainwindow.cpp:4347-4353 | every later replay of a clean, keeping continuation is of the newest frame if and only if this replay takes no captured frame of the generation being captured, or what can be captured next under it is not older than any frame offered under it |
| ResetSeeds.UnkeptLoses | gui/src/qmlmainwindow.cpp:4347-4353 | otherwise a continuation replays an older frame |
| ResetSeeds.OlderFrameIsReplayed | gui/src/qmlmainwindow.cpp:4339-4370 | a run with fresh generations that replays an older frame, after a replay that took the newest away |
| ResetSeeds.RisingOffersReplayNewest | gui/src/qmlmainwindow.cpp:3739-3770 | while frames are offered in order, every replayed frame is the newest of its generation, however requests and resets overlap |
| ResetSeeds.SerializedKeeps | gui/src/qmlmainwindow.cpp:3390-3475 | requests and resets that do not overlap keep every capture |
| ResetSections.ResetControl.LoadGeneration | gui/src/qmlmainwindow.cpp:3456-3469 | a request joins the generation being captured or loads the next number |
| ResetSections.ResetControl.PublishGeneration | gui/src/qmlmainwindow.cpp:3469-3471 | publishes it and raises the pending flag |
| ResetSections.ResetControl.QueueReset | gui/src/qmlmainwindow.cpp:3456-3475 | a whole request publishes a generation that no reset has executed, and keeps what the replay laws need |
| ResetSections.ResetControl.ExecuteReset | gui/src/qmlmainwindow.cpp:3390-3449 | a whole reset executes the captured generation and replays the newest frame offered under it, or is put off and takes nothing |
| ResetSections.ResetControl.CountReset | gui/src/qmlmainwindow.cpp:3396-3418 | executes if and only if the timeline is to be kept, no reset was executed yet, or 100 ms have passed since; counted either way, and one put off leaves a timer for what is left of the 100 ms |
| ResetSections.ResetControl.TimerFires | gui/src/qmlmainwindow.cpp:3407-3411 | the timer is used up, and asks again if and only if no other reset was counted |
| ResetSections.ResetControl.RetireGeneration | gui/src/qmlmainwindow.cpp:3441-3443 | the executed reset ends its capture |
| ResetSections.ResetControl.StoreResetSeed | gui/src/qmlmainwindow.cpp:3739-3770 | the frame is taken unless one of the same generation that is not older is there, which then stays |
| ResetSections.ResetControl.TakeResetSeed | gui/src/qmlmainwindow.cpp:4339-4362 | the seed leaves either way and is replayed only under its own generation |
| Pacing.CatchUpByLoop | gui/src/qmlmainwindow.cpp:5519-5522 | the loop finds the next time of the target's grid after now |
| Pacing.CatchUpByDivision | gui/src/qmlmainwindow.cpp:5456-5459 | the division finds the next time of the same grid, at most one interval ahead |
| Pacing.NextOnGridIsUnique | gui/src/qmlmainwindow.cpp:5456-5522 | there is only one such time, so the two computations agree |
| Pacing.NextOnGridIsLeast | gui/src/qmlmainwindow.cpp:5456-5522 | it is the least time of the grid after now |
| Pacing.EstimateBounded | gui/src/qmlmainwindow.cpp:6819-6832 | a 7/8 average stays between its accepted samples (7 below at most) and within twice the longest present interval |
| Pacing.AveragedMoves | gui/src/qmlmainwindow.cpp:6819-6832 | the first accepted sample is taken as it is, each later one draws the estimate an eighth of the way, and when it stays |
| Pacing.LeadBounded | gui/src/qmlmainwindow.cpp:5523-5536 | the lead is at most six of the longest present intervals plus the submit and swap estimate |
| Pacing.LeadIsSum | gui/src/qmlmainwindow.cpp:5523-5533 | each estimate counts in full in the lead, and a negative one not at all |
| Pacing.FramePacer.SleepUntil | gui/src/qmlmainwindow.cpp:5546-5552 | each sleep begins before the wake-up time, asks for what is left to it up to 1000 us and follows a look at the flag of the user interface; unless one of these finds it raised, the wake-up time is reached, and it is passed by the lateness of one sleep and one reading at most |
| Pacing.FramePacer.Throttle | gui/src/qmlmainwindow.cpp:5494-5558 | one call: grid target, sleep to the lead before it and at most the lateness longer, next target one interval on or cleared, the flags taken in their order |
| Pacing.KeepsTargetIff | gui/src/qmlmainwindow.cpp:5519-5522 | a call keeps the target it was left if and only if that lies ahead of the clock |
| Pacing.RateBoundedAbove | gui/src/qmlmainwindow.cpp:5494-5558 | n uninterrupted calls take at most n times the interval, the work between them and the lateness of clock and sleep |
| Pacing.SteadyRate | gui/src/qmlmainwindow.cpp:5494-5558 | while work and lateness fit into one interval there is no drift: the n-th call returns n - 1 intervals after the first target, less at most the lead, and late by one sleep at most |
| Pacing.TargetsAdvance | gui/src/qmlmainwindow.cpp:5494-5558 | successive targets advance by at least one interval each |
| Pacing.RateBounded | gui/src/qmlmainwindow.cpp:5494-5558 | the n-th of n uninterrupted calls returns more than n - 1 intervals, less the lead, after the first was entered |
| Pacing.NextTargetNear | gui/src/qmlmainwindow.cpp:5553-5558 | the next target is at most one interval and the lead ahead of the clock |
| Pacing.RateBoundedBySamples | gui/src/qmlmainwindow.cpp:6819-6957 | the rate bound from the sampled estimates alone |
| MappingText.MappingRoundTrip | gui/src/qmlbackend.cpp:2276-2285 | guid, comma and printed mapping split and parse back to the guid, the type and the same lists in order |
| MappingText.SplitJoined | gui/src/qmlbackend.cpp:2164-2164 | splitting joined separator-free parts gives the parts |
| MappingEditor.EditKeepsInverse | gui/src/qmlbackend.cpp:2077-2137 | one edit keeps the maps inverse, the lists non-empty and duplicate-free |
| MappingEditor.EditIs | gui/src/qmlbackend.cpp:2104-2131 | in every inverse mapping an edit puts the input first for index 0 and last otherwise, leaves the input that stood at the index in no list and without a button, keeps the order of the others, takes exactly this input from its former owner, and changes no other list or input |
| MappingEditor.EditedIsUnique | gui/src/qmlbackend.cpp:2104-2131 | only one result fits that description |
| MappingEditor.EditsKeepInverse | gui/src/qmlbackend.cpp:2077-2137 | so does every sequence of edits |
| MappingEditor.ListsDisjoint | gui/src/qmlbackend.cpp:2105-2131 | inverse maps have disjoint lists |
| MappingEditor.InverseForeverIff | gui/src/qmlbackend.cpp:2104-2117 | the maps stay inverse under all edits exactly when nothing is listed under an empty name |
| MappingEditor.EmptyNameBreaksInverse | gui/src/qmlbackend.cpp:2104-2117 | an edit that breaks them otherwise |
| MappingEditor.ParsedInverseIff | gui/src/qmlbackend.cpp:2187-2206 | a parsed mapping is inverse exactly when no physical input occurs twice |
| MappingEditor.ParsedTriggers | gui/src/qmlbackend.cpp:2187-2206 | in whatever a text gives, each input listed for a button triggers one, and only a button it is listed for; crc, platform, type, hint and sdk keys are never triggered |
| MappingSession.Session.Open | gui/src/qmlbackend.cpp:2139-2212 | the error paths leave everything alone; else both maps are those of the text, nothing is altered, and the first text of a controller is remembered |
| MappingSession.Session.Parse | gui/src/qmlbackend.cpp:2187-2206 | the nested loops build the two maps of the parts |
| MappingSession.Session.UpdateButton | gui/src/qmlbackend.cpp:2077-2137 | from inverse maps on, an edit that changes something is described by `EditIs`; the maps stay inverse, and the altered flag holds exactly when the mapping differs from the applied one |
| MappingSession.Session.Text | gui/src/qmlbackend.cpp:2278-2285 | the nested loops print the mapping |
| MappingSession.Session.Apply | gui/src/qmlbackend.cpp:2276-2315 | a text equal to the original is dropped from the settings, any other is saved and queued for this guid; a mapping that was set back to the reported one is always saved when the controller's type has no comma |
| MappingSession.Session.Quit | gui/src/qmlbackend.cpp:2247-2268 | the dialog's state is cleared, settings and originals are not |
| MappingSession.SavedMappingReopens | gui/src/qmlbackend.cpp:2036-2037 | a saved mapping with its guid in front reopens with the same lists and inverse maps |
| MappingReset.ManualResetNoticedIff | gui/src/qmlbackend.cpp:2286-2288 | a mapping that was set back to the reported text is recognised if and only if the type is itself at least two comma-separated parts, those the text begins with, and the text's remaining parts are the pairs in print order |
| MappingReset.ManualResetNeverNoticed | gui/src/qmlbackend.cpp:2286-2288 | with a type that has no comma it is never recognised, for any text and mapping |
| MappingReset.ManualResetCanBeNoticed | gui/src/qmlbackend.cpp:2180-2186 | a text and a type with a comma for which it is |
| MappingReset.PairsAreFewer | gui/src/qmlbackend.cpp:2187-2208 | the pairs printed from a parsed text are never all the parts after its guid |
| MappingReset.ParsedIsPlain | gui/src/qmlbackend.cpp:2164-2206 | what is parsed from a text has no comma or colon in keys and inputs, and no empty list |
| MappingReset.ParsedCount | gui/src/qmlbackend.cpp:2187-2206 | a parsed mapping lists as many inputs as its text gives |
| AiaRecovery.Recover | lib/src/aia.c:227-334 | completes exactly when a chain of at most four fetched issuers verifies, with the least such number, exactly as many fetches, the bundle of exactly that chain, null on failure, and every buffer freed once |
| AiaRecovery.RecoveredIff | lib/src/aia.c:302-313 | failure means no chain verifies; no fetch means the leaf verifies or names no usable issuer |
| AiaRecovery.Walk | lib/src/aia.c:252-300 | the hop loop ends at the first verifying chain or where it cannot go on |
| AiaRecovery.Hop | lib/src/aia.c:264-299 | one hop: non-http issuers are refused, failed and empty answers freed, the URL freed always |
| AiaRecovery.HopExtends | lib/src/aia.c:264-299 | a hop extends the chain by the next issuer or ends the walk with no chain left that verifies |
| AiaRecovery.ChainPrefix | lib/src/aia.c:295-299 | longer chains extend shorter ones |
| AiaRecovery.ChainIff | lib/src/aia.c:264-299 | a chain is exactly a sequence of non-empty issuers, each fetched at the http or https address that the certificate before it names |
| AiaRecovery.IncompleteIff | lib/src/aia.c:252-313 | recovery reports an incomplete chain if and only if no such sequence of at most four verifies, and makes at most four fetches |
| AiaRecovery.Finish | lib/src/aia.c:309-333 | no bundle without issuers; a missing or empty bundle is a memory error and is freed |
| AiaRecovery.FreeAll | lib/src/aia.c:221-225 | frees each found buffer once and nothing else |
| IssuerCache.Cache.AddPem | lib/src/aia.c:95-124 | accepts exactly texts that begin as a certificate when memory is granted, appends them newline-terminated and counts a change |
| IssuerCache.Cache.Copy | lib/src/aia.c:126-147 | a zero-terminated copy, null exactly when empty or out of memory |
| IssuerCache.Cache.Clear | lib/src/aia.c:210-218 | empties the cache and counts a change |
| IssuerCache.Cache.Generation | lib/src/aia.c:202-208 | a reading counts the changes of the calls so far, modulo 2^32 |
| IssuerCache.Cache.WithCa | lib/src/aia.c:149-192 | succeeds exactly when there is content, every allocation is granted, the file reads without error and the sizes fit; then the result is file, newline and content |
| IssuerCache.ReadAll | lib/src/aia.c:161-174 | the chunked loop gathers the whole file, one allocation a chunk |
| IssuerCache.ContentIsLog | lib/src/aia.c:95-218 | after any run the content is the accepted texts since the last reset, in order, each newline-terminated |
| IssuerCache.TerminatedIs | lib/src/aia.c:112-116 | an accepted text ends in a newline, and gets one more character only if it did not |
| IssuerCache.EmptyIff | lib/src/aia.c:131-141 | the cache is empty exactly when nothing was accepted since the last reset |
| IssuerCache.ReadingsAgreeIff | lib/src/aia.c:82-216 | two generation readings agree exactly when the changes between them are a multiple of 2^32 |
| IssuerCache.EqualReadingsEqualContent | lib/src/aia.c:202-218 | with fewer than 2^32 changes between them, equal readings mean nothing changed |
| Cbor.CborDecode | android/psn-mock/psn_mock.py:101-135 | the decoder with its loops computes the recursive decoding, errors included, and always advances |
| Cbor.CborItems | android/psn-mock/psn_mock.py:121-126 | the array loop |
| Cbor.CborPairs | android/psn-mock/psn_mock.py:127-132 | the map loop; the value is decoded before an unhashable key is refused |
| CborEncodings.DecodesEncoding | android/psn-mock/psn_mock.py:101-135 | any encoding, minimal or not, at any offset with anything after it, decodes to its meaning and the offset past it; items of major type 7 outside the subset are told apart from it |
| CborAccepted.EncodingFound | android/psn-mock/psn_mock.py:101-135 | whatever is decoded without reading past the end has an encoding there |
| CborAccepted.DecodesIff | android/psn-mock/psn_mock.py:101-135 | decoding and encoding are inverse in both directions, where floats, undefined and unassigned simple values count as readable but not as encodings of the subset |
| CborAccepted.EncodingsUnambiguous | android/psn-mock/psn_mock.py:101-135 | no encoding begins another of different meaning or length |
| CborValues.RoundTrip | android/psn-mock/psn_mock.py:101-135 | every value of the supported subset has an encoding, and all its encodings decode to it in any surroundings |
| CborValues.EntriesDistinct | android/psn-mock/psn_mock.py:127-132 | a decoded map has distinct keys whatever was encoded |
| CborValues.PutThenLookup | android/psn-mock/psn_mock.py:131-131 | the last value of a key wins, and true and 1 are one key |
| CborValues.MajorSevenIff | android/psn-mock/psn_mock.py:133-134 | an item of major type 7 is read by its argument alone, at every width, and as what it stands for if and only if its additional information is 20, 21 or 22 |
| CborValues.CutHeadIsRead | android/psn-mock/psn_mock.py:103-111 | an argument cut anywhere by the end of the data is read from the bytes that are there |
| CborValues.TruncatedIntegerIff | android/psn-mock/psn_mock.py:108-117 | a truncated integer of either sign is accepted wherever it is cut, and is the right number if and only if its argument is zero |
| CborValues.TruncatedStringIsRead | android/psn-mock/psn_mock.py:118-120 | a truncated byte string is accepted as the bytes that are there |
| CborValues.FloatIsReadAsFalse | android/psn-mock/psn_mock.py:133-134 | a half-precision number that is read as false |
| Grants.Server.IssueCode | android/psn-mock/psn_mock.py:248-259 | stores the code with the scenario's expiry and use mark |
| Grants.Server.ExchangeCode | android/psn-mock/psn_mock.py:587-610 | the checks in order, and the code is spent exactly when it is granted |
| Grants.Server.NewChallenge | android/psn-mock/psn_mock.py:268-275 | sweeps exactly the challenges older than 600 s, then adds the new one |
| Grants.Server.TakeChallenge | android/psn-mock/psn_mock.py:277-282 | the challenge is gone even if it was of another kind |
| Grants.StoreTells | android/psn-mock/psn_mock.py:248-259 | a stored code is as it was issued, and used exactly when it began so or an eligible exchange was made |
| Grants.GrantedIff | android/psn-mock/psn_mock.py:587-610 | exactly the first eligible exchange of a code is granted: unexpired, with its redirect_uri, not for network-drop or code-used |
| Grants.ExchangeAnswer | android/psn-mock/psn_mock.py:587-610 | over every run, what each exchange of an issued code is answered and in which order the reasons count, told by the issue and the earlier grants |
| Grants.UnknownIff | android/psn-mock/psn_mock.py:588-592 | a code is unknown if and only if it was not issued before |
| Grants.GrantedInTime | android/psn-mock/psn_mock.py:248-259 | a code issued as expired is never granted; any other passes up to the end of its lifetime and not after |
| Grants.GrantedTo | android/psn-mock/psn_mock.py:587-610 | a grant goes to the account the code was issued to |
| Grants.GrantedOnce | android/psn-mock/psn_mock.py:593-600 | at most one grant a code |
| Grants.AcceptedIff | android/psn-mock/psn_mock.py:268-282 | a challenge is accepted exactly when it was opened for that kind and neither taken nor swept since |
| Grants.AcceptedOnce | android/psn-mock/psn_mock.py:277-282 | at most one acceptance a challenge |

## Left out

- ReplayedSeedIsNewest: stated for runs whose replays keep the capture, which `NewestIffKeeps` shows to be the exact condition at each replay.
- ResetGenerationsAreFresh: stated for runs whose resets retire cleanly, which `FreshIffClean` shows to be the exact condition; reading the clock, counting and clearing the flags at the start of a reset are one step, and so are the three accesses that retire a generation (gui/src/qmlmainwindow.cpp:3441-3443), the three stores that publish one (3469-3471) and the two loads that begin an offer (3303-3304); the direct call of `resetPlaceboQueue` from the GUI thread after a session failed to start (gui/src/qmlbackend.cpp:928) is left out; uint64 wrap-around of the generation numbers is not modelled.
- RunOrdered: replayed and kept frames are included under the conditions that `ReplayOrderIff` and `KeptOrderIff` show to be exact, since the order fails without them. Session changes start a new order.
- PushedInOrder: the same.
- SessionInOrder: ends at the first executed reset, replayed or kept frame.
- ChangeSession: one step, where the source clears the queue, the origin and the store under separate locks.
- DeferredSwapHandshake: runs without a session start while a swap is in flight; `SessionStartIff` shows that such a start breaks it.
- WaitingFrameIsSwappedOut: counts the threads' own steps; a missing swapchain, new frames, user-interface updates and drains come from outside and are not among them.
- UpdateIsRendered: counts the threads' own steps; new frames, user-interface updates and drains come from outside and are not among them.
- RateBounded: for calls that the user interface neither cut short nor interrupted, as are the bounds above it; unsigned wrap-around of microsecond times is not modelled.
- CborDecode: Python's recursion limit, and a negative start offset.
- WithCa: frees on its error path are not tracked; buffers there are collected arrays.
- Open: the reset request for a Steam virtual controller and the analog-stick switch, which touch neither map.
- UpdateButton: edits arrive only while a mapping is in progress, which the dialog checks; a negative index and an unknown button number are not modelled.
- The stale-reject return that leaves `placebo_state_mutex` locked (gui/src/qmlmainwindow.cpp:3595, 3642-3653), the second free after a rejected hand-back (4271-4275) and the warm-up stored after it was pushed (4252-4302): ownership and locking are proved at the store's own contract, not through these paths.
- The origin saved with a promoted frame (gui/src/qmlmainwindow.cpp:3238): no common timeline origin for all pushes is claimed, and pushed entries carry absolute timestamps.
- At most one render in flight outside direct mode: the finalize in mid-render does not return (gui/src/qmlmainwindow.cpp:6816) and `updateSwapchain` posts a render without the flag (6111).
- Device loss, session teardown, and toggling the deferred-swap setting during a run.
- Floating-point rounding of timestamps and intervals.
- Rendering, Vulkan and OpenGL, libplacebo and FFmpeg internals, Qt Quick, telemetry, window and input events.
- The host list and `displayServerAt` in gui/src/qmlbackend.cpp, whose filters differ, and settings, discovery and wake glue, which would only add easy members.
- curl transfers, address filtering, X.509 parsing and verification in lib/src/aia.c.
- HTTP handlers, pages, sessions, WebAuthn signature checks and event numbering in android/psn-mock/psn_mock.py; event numbers stop rising once the list is trimmed.
