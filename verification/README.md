# Verification of Aite's protocols and transformations

A Dafny model of the parts of Aite where several actors race over shared state, and of the printers,
parsers and limits the rest relies on, with proofs of what they promise. `dafny verify dfyconfig.toml`
checks the whole project.

| file | models |
|---|---|
| `CanonicalJson.dfy`, `CanonicalForm.dfy`, `JsonParser.dfy`, `EvidenceChain.dfy` | the canonical JSON writer, its text spelled out, an independent reader for it, and the evidence hash chain |
| `Dispatch.dfy`, `DispatchLog.dfy`, `Cancellation.dfy`, `FollowUps.dfy`, `SteerTarget.dfy` | admission, cancellation and the drop guards; what the steps of a run alone determine; how many cancelled records a chain gets; which task a follow-up goes to and when it is lost |
| `ParallelDispatch.dfy`, `ParallelProgress.dfy` | the queue and the parallel dispatcher; when it waits, wakes and starts |
| `DingtalkStream.dfy`, `DingtalkProgress.dfy` | the DingTalk frame queue, its wake slot and its acknowledgements; what keeps the dispatcher going |
| `WecomStream.dfy`, `StreamTable.dfy`, `WecomClient.dfy`, `WecomConnection.dfy`, `WecomReconnect.dfy`, `BoundedMap.dfy` | WeCom streamed replies, which of them the table holds and the sweep visits, acknowledgement matching, reconnecting and standby and where the loop comes to rest, the bounded table |
| `SendWindow.dfy`, `TokenBucket.dfy`, `ChatPacer.dfy` | the sliding send window, the token bucket, one bucket per chat |
| `Markdown.dfy`, `Relabelling.dfy`, `FrontMatter.dfy` | the provenance label in front matter, laid over itself, and line by line |
| `Jpeg.dfy`, `JpegLayout.dfy` | the label in JPEG segments, and where it stands |
| `TaskNo.dfy`, `TaskMentions.dfy` | task numbers across Rust and Go |
| `WorkPath.dfy`, `PathRewriting.dfy` | sandbox paths, and the rewritings that leave them alone |
| `Egress.dfy`, `EgressRules.dfy` | the outbound policy, and its rules with hosts, ports and characters spelled out |

## How to read it

A protocol is a state and a set of steps, one step for each critical section or channel operation of
the source; a run is any sequence of enabled steps, and the results hold for every run. A type whose
methods update fields in place is a class whose methods are tied to a function of the old state; the
protocol steps use the same functions. Loops of the source are loops here, proved against a function
that says what they compute.

Clocks, sleeps, digests and payload builders are parameters. A digest is any function to 64
characters: where a proof would need it to be injective it hands back two inputs that share a digest.
Times and tokens are reals.

Several operations are described twice: once by the function their method is proved against, and once
by laws that spell out positions, characters and times without it (`CanonicalForm.dfy`,
`ParallelProgress.dfy`, `DispatchLog.dfy`, `FrontMatter.dfy`, `JpegLayout.dfy`, `TaskMentions.dfy`,
`PathRewriting.dfy`, `EgressRules.dfy`, `StreamTable.dfy`, `DingtalkProgress.dfy`, `WecomReconnect.dfy`).

## Main results

* Canonical text is injective on meaning and read back by an independent parser (`ParseOfText`,
  `SameTextIffSameMeaning`); two verified evidence chains with one root are one history or exhibit a
  broken digest (`Compare`).
* How many cancelled records a chain gets, exactly (`MoreThanOneIff`); a cancel that saw its task idle is
  final (`IdleCancelIsFinal`); an ended worker does nothing more (`EndedForGood`).
* The parallel dispatcher is serial per session, bounded across, in put order, and never sleeps on work
  it could start (`SerialPerSessionBoundedAcross`, `StartsInPutOrder`, `WaitingWorkIsStarted`).
* Every DingTalk frame is answered once and in order, and a queued one can always be brought to its
  handler (`EveryFrameAnsweredOnceInOrder`, `QueuedIsHandled`).
* WeCom acknowledgements go to the oldest request of their key (`AnsweredOldestFirst`, `ReplyIsItsOwn`);
  finished streams stay silent and old ones are finished (`FinishedStreamsStaySilent`,
  `SweepLeavesNothingOld`); a kicked instance never dials again, and any other that is not cancelled can
  (`KickedNeverDials`, `ComesToRest`).
* The ring is a sliding window for each chat alone (`RingIsSlidingWindow`, `AnswerIsOwnRequests`); the
  bucket bounds what is granted in any interval (`AcquireRateBound`).
* Labelling keeps everything else in its place and replaces an earlier label, under an exact condition
  for front matter (`OtherLinesAreTheRest`, `RelabellingReplacesIff`, `LabelledSegmentsAre`, `RepeatedLabels`);
  splitting and joining JPEG segments are inverse up to fill bytes (`SplitUndoesJoin`, `PackedOfSplit`).
* Printed task numbers are found again, paths resolve to what survives climbing, and the outbound policy
  lets out exactly what it says (`PrintedIsFoundIff`, `StackHoldsSurvivors`, `CustomAllowsIff`).

## Where the code and its comments part

Each of these is a lemma with a run or an input that shows it, and where there is one, the exact
condition under which the comment holds.

* `outbound.go:105-109` says a chat bucket idle for a second is full. The time of use is set when the
  bucket is looked up, and senders may still be queueing for it (`IdleButNotRefilled`,
  `EvictUnrefilled`); dropping it is unnoticed exactly when it would be full (`DropUnobservableIffRefilled`).
* `platform.go:401` says `Connected` is always false in standby. Entering standby is two stores, and a
  connection can go online after the first (`ConnectedBetweenStores`, `ConnectedInStandbyHappens`);
  `ConnectedInStandbyIff` says exactly when the two are seen together.
* `dispatch.rs:30-33` says that clearing `owned` and `steer` together keeps a follow-up from being
  queued where nobody drains it. The target is chosen in an earlier critical section, so it still can
  be (`FollowUpCanBeStranded`), exactly when the guard drops in between (`StrandedIff`).
* `dispatch.rs:183-189` promises one cancelled record per chain. One cancel yields one at most
  (`OneCancelOneRecord`), and a later cancel yields none once it re-reads the stored status
  (`LaterCancelSettles`); two at once can (`TwoIdleCancelsCanBothWrite`), exactly when their re-reads
  and saves cross (`TwoControlRecordsIff`, `BothWriteIff`), and so can one after a worker that wrote its
  record but died before storing the status (`CancelAfterNoteCanWrite`). `MoreThanOneIff` is the exact
  condition for the whole chain.
* Front matter is closed by a line in the sense of LF but its lines are cut by `splitlines`, so an
  exotic line break can lose the label (`LabelCanBeLost`); `ReadsBackIff` and `RelabellingReplacesIff`
  say for which files and payloads both laws hold.
* `workdir.go:73-74` says the work directory itself is no file; with a trailing slash it passes
  (`DirectoryPassesIff`). A root work directory accepts only itself (`RootAcceptsOnlyItself`).
* `TaskNoOf` folds case beyond ASCII: a Kelvin sign counts as a digit (`FoundIsPrintableIff`).
* `Acquire` does not refuse a negative request, which overfills the bucket (`NegativeRequestOverfills`).

## Model

| member | source | states |
|---|---|---|
| CanonicalJson.SortKeys | core/crates/contracts/src/evidence.rs:79-80 | the keys come out strictly ascending by code point, the same set of keys, each once |
| CanonicalJson.BeforeIsTotal | core/crates/contracts/src/evidence.rs:80 | of two different keys one comes before the other, so an order of keys is unique |
| CanonicalJson.WriteString | core/crates/contracts/src/evidence.rs:93-109 | appends the quoted, escaped string to the buffer and changes nothing already there |
| CanonicalJson.WriteValue | core/crates/contracts/src/evidence.rs:58-76 | appends the canonical text of any value |
| CanonicalJson.WriteItem | core/crates/contracts/src/evidence.rs:66-71 | one array element: a comma only between elements |
| CanonicalJson.WriteItems | core/crates/contracts/src/evidence.rs:66-71 | the elements of an array in order |
| CanonicalJson.WriteArray | core/crates/contracts/src/evidence.rs:64-73 | an array between its brackets |
| CanonicalJson.WriteMember | core/crates/contracts/src/evidence.rs:82-89 | one member: a comma only between members, key, colon, the value that key has |
| CanonicalJson.WriteMembers | core/crates/contracts/src/evidence.rs:82-89 | the members in sorted key order |
| CanonicalJson.WriteObject | core/crates/contracts/src/evidence.rs:78-91 | an object between its braces, its keys sorted |
| CanonicalJson.CanonicalText | core/crates/contracts/src/evidence.rs:49-56 | the canonical text of a payload |
| CanonicalJson.TextByMeaning | core/crates/contracts/src/evidence.rs:49-56 | two well-formed values that mean the same (as maps, at every depth) have one text: insertion order never shows |
| JsonParser.ParseOfText | core/crates/contracts/src/evidence.rs:58-109 | a JSON parser written from RFC 8259 reads back from the printed text, whatever follows it, exactly the value that was printed |
| JsonParser.StringComesBack | core/crates/contracts/src/evidence.rs:93-109 | an escaped string reads back character for character and ends at its own closing quote |
| JsonParser.NumberComesBack | core/crates/contracts/src/evidence.rs:62 | an integer reads back when no digit follows |
| JsonParser.SameTextIffSameMeaning | core/crates/contracts/src/evidence.rs:49-91 | two payload texts are equal if and only if the payloads mean the same |
| JsonParser.TextsAreSelfDelimiting | core/crates/contracts/src/evidence.rs:49-91 | no payload text is a proper prefix of another |
| CanonicalForm.PlainPrintsAsItStands | core/crates/contracts/src/evidence.rs:105 | a string without control characters, quotes and backslashes is printed as it stands between two quotes: a slash or a letter outside ASCII too |
| CanonicalForm.ShortEscapes | core/crates/contracts/src/evidence.rs:97-103 | quote, backslash, newline, carriage return, tab, backspace and form feed are the seven two-character escapes |
| CanonicalForm.ControlEscapes | core/crates/contracts/src/evidence.rs:104 | every other control character is \u00 and two hexadecimal digits in lower case |
| CanonicalForm.InnerAppend | core/crates/contracts/src/evidence.rs:93-109 | what stands between the quotes of s + t is that of s followed by that of t |
| CanonicalForm.BeforeIsCodePointOrder | core/crates/contracts/src/evidence.rs:80 | keys are compared at the first position where they part, by code point, and a key comes before its extensions |
| CanonicalForm.AtomTexts | core/crates/contracts/src/evidence.rs:60-62 | null, true and false; an integer is its shortest decimal numeral, with a minus sign when negative |
| CanonicalForm.StringText | core/crates/contracts/src/evidence.rs:63 | a string value is its text between quotes |
| CanonicalForm.ArrayText | core/crates/contracts/src/evidence.rs:64-73 | an array is its elements' texts in order with single commas between them, in square brackets |
| CanonicalForm.ObjectText | core/crates/contracts/src/evidence.rs:78-91 | an object is its members' texts, keys ascending by code point, single commas between them, in braces |
| EvidenceChain.Verify | core/crates/evidence/src/writer.rs:379-415 | answers true exactly when every event has its own task id and position, a payload that hashes to its payload hash, and links to its predecessor |
| EvidenceChain.Append | core/crates/evidence/src/writer.rs:279-329 | the new chain verifies exactly when the old one did; its root is the digest over the old root and the new payload hash |
| EvidenceChain.LastLink | core/crates/contracts/src/evidence.rs:115-117 | in a verified chain the root is the digest of the last link text, whose first 64 characters are the root of the chain without its last event |
| EvidenceChain.CompareLast | core/crates/contracts/src/evidence.rs:115-121 | two verified chains with one root: the last payloads mean the same and the earlier roots agree, or two different inputs with one digest are handed back |
| EvidenceChain.Compare | core/crates/contracts/src/evidence.rs:28-47 | tamper evidence: two verified chains with one root are the same payloads position by position, or the result is a digest collision or an input hashing to GENESIS, both exhibited |
| EvidenceChain.RootOfSamePayloads | core/crates/contracts/src/evidence.rs:111-121 | conversely verified chains with the same payloads have one root; task ids, kinds and payload spelling do not enter it |
| EvidenceChain.VerifiedIff | core/crates/evidence/src/writer.rs:379-415 | a chain verifies exactly when each event has its task and position, the digest of its payload's text, the hash of the event before it or GENESIS, and the digest of the two together |
| EvidenceChain.VerifiedIsDetermined | core/crates/evidence/src/writer.rs:279-329 | two verified chains of a task with the same payloads and kinds are equal in every field |
| EvidenceChain.KindIsNotCovered | core/crates/contracts/src/evidence.rs:111-121 | changing the kind of one event leaves a verified chain verified |
| DispatchTables.ControlTables.constructor | core/crates/control/src/plane.rs:85-99 | all five tables start empty |
| DispatchTables.ControlTables.Admit | core/crates/control/src/dispatch.rs:190-198 | one critical section: refused exactly when the task is cancelled, otherwise entered into running; no other table changes |
| DispatchTables.ControlTables.BeginCancel | core/crates/control/src/dispatch.rs:338-343 | one critical section: reports whether the task was running and marks it cancelled |
| DispatchTables.ControlTables.EnterAndOwn | core/crates/control/src/sessions.rs:219-219 | the task becomes owned, the other tables as before |
| DispatchTables.ControlTables.RegisterAbandon | core/crates/control/src/dispatch.rs:207-208 | an unsent abandon signal is registered for the task, the other tables as before |
| DispatchTables.ControlTables.SignalAbandon | core/crates/control/src/dispatch.rs:246-251 | the signal is sent exactly when one is registered |
| DispatchTables.ControlTables.PushSteer | core/crates/control/src/routing/mod.rs:348-351 | the line goes behind those already waiting for the task |
| DispatchTables.ControlTables.DrainSteer | core/crates/control/src/plane.rs:110-112 | hands back all waiting lines in order and leaves none |
| DispatchTables.ControlTables.DropRunningGuard | core/crates/control/src/dispatch.rs:72-76 | the task leaves running and nothing else changes |
| DispatchTables.ControlTables.DropAbandonGuard | core/crates/control/src/dispatch.rs:60-64 | the task leaves the abandon table and nothing else changes |
| DispatchTables.ControlTables.DropFinishGuard | core/crates/control/src/dispatch.rs:28-39 | the task leaves steer and owned together and nothing else changes |
| DispatchProtocol.RunKeepsInv | core/crates/control/src/dispatch.rs:172-240 | over every interleaving: each table holds a task exactly while the guard that clears it is armed, the count is exact, no record is written twice, and every record is owed to a cancel of its kind |
| DispatchProtocol.IdleCancelIsFinal | core/crates/control/src/dispatch.rs:183-201 | after a cancel that saw its task outside running, at every later moment the task is cancelled and not running, no worker starts or settles it, and an admission sends it straight to its finish guard |
| DispatchProtocol.RunningCancelWritesNothing | core/crates/control/src/dispatch.rs:435-469 | a cancel that saw its task running never writes control-side evidence, and the task counts as cancelled ever after |
| DispatchProtocol.CancelSeesTheWorker | core/crates/control/src/dispatch.rs:335-343 | what the critical section reads is the truth: running exactly from admission to the drop of the running guard |
| Cancellation.OneWorkerRecord | core/crates/worker/src/loop.rs:193-196 | a worker writes at most one cancelled record for a task |
| Cancellation.ClosedIdleCancelHasOneRecord | core/crates/control/src/dispatch.rs:435-469 | a cancel has a record of its own exactly when it saw its task idle and came to its end, and then exactly one |
| Cancellation.OneCancelOneRecord | core/crates/control/src/dispatch.rs:183-189 | two cancelled records of one task, of whichever kinds, are owed to two different cancels: a single cancel never yields two |
| Cancellation.LaterCancelSettles | core/crates/control/src/dispatch.rs:345-389 | a cancel that re-reads successfully after another idle cancel of its task has saved settles for good and writes nothing |
| Cancellation.TwoControlRecordsIff | core/crates/control/src/dispatch.rs:345-469 | a chain holds two control-side records of a task if and only if two cancels that saw it idle came to their end having each re-read it before the other's save, or in vain |
| Cancellation.ClosesIff | core/crates/control/src/dispatch.rs:358-389 | a cancel that ended without a failed save went all the way if and only if its re-read failed or found the stored task not terminal |
| Cancellation.MoreThanOneIff | core/crates/control/src/dispatch.rs:183-189 | a chain gets more than one cancelled record of a task if and only if two idle cancels crossed, or a worker wrote its record and an idle cancel then re-read the task in vain |
| Cancellation.CancelAfterNoteCanWrite | core/crates/worker/src/deliver.rs:199-231 | a run with both a worker record and a control record: the worker ended between its record and its last save |
| Cancellation.BothWriteIff | core/crates/control/src/dispatch.rs:358-418 | when nobody else makes the stored task terminal, two cancels that saw it idle and ran without a failed save both write if and only if each re-read it before the other's save or its re-read failed |
| DispatchProtocol.CompletionCountIsExact | core/crates/control/src/dispatch.rs:41-51 | at every moment, also after an abort at any await, puts = queued + in hand + done; the count is zero exactly when nothing is queued or in hand; a task that has left is in none of the tables its guards clear |
| DispatchLog.PopTakesFirstPut | core/crates/control/src/queue.rs:63-65 | over every run a pop hands to a worker the task put first among those not taken yet, and no other |
| DispatchLog.CancelledIff | core/crates/control/src/dispatch.rs:338-343 | a task is marked cancelled exactly when some cancel of it has begun |
| DispatchLog.AdmittedIff | core/crates/control/src/dispatch.rs:190-198 | at admission a task goes straight to its finish guard exactly when a cancel of it had begun, and is running otherwise |
| DispatchLog.SentIffSignalled | core/crates/control/src/dispatch.rs:207-251 | a registered worker's signal is sent exactly when one came since it registered |
| DispatchLog.AbandonedIff | core/crates/control/src/dispatch.rs:207-232 | a working task can be abandoned exactly when it was signalled since it registered; earlier signals are lost |
| DispatchLog.PlaceGrows | core/crates/control/src/dispatch.rs:150-240 | over every run a task only ever moves on, from entering through the worker's stages to its last guard |
| DispatchLog.EndedForGood | core/crates/control/src/dispatch.rs:228-240 | an ended or abandoned worker stands before its running guard and does nothing more with its task |
| DispatchLog.TerminalIffStored | core/crates/control/src/dispatch.rs:358-418 | the stored status is terminal exactly when the last status stored for the task, by its worker or by one of its cancels, was |
| DispatchLog.PushedOnce | core/crates/control/src/routing/mod.rs:348-351 | a follow-up is pushed at most once |
| DispatchLog.WaitingArePushed | core/crates/control/src/routing/mod.rs:348-351 | what waits for a task is, in order, what was pushed to it since its lines were last taken |
| DispatchLog.DrainHandsBack | core/crates/control/src/plane.rs:110-112 | a drain hands back every text pushed since the lines were last taken, each once and in order, and leaves none |
| FollowUps.UndeliveredAreLate | core/crates/control/src/dispatch.rs:28-39 | what is queued under a task nobody owns is, in order and each once, the texts pushed after its finish guard dropped |
| FollowUps.LateIff | core/crates/control/src/routing/mod.rs:319-351 | a follow-up is pushed under an unowned task if and only if the finish guard of its target dropped after its target was picked |
| FollowUps.StrandedIff | core/crates/control/src/routing/mod.rs:319-351 | over every run a follow-up lies undelivered under a task nobody owns if and only if the finish guard of that task dropped between the picking of a follow-up's target and its push |
| FollowUps.FollowUpCanBeStranded | core/crates/control/src/routing/mod.rs:319-351 | a run in which that happens, the target picked by the rule of steer_target |
| Cancellation.TwoIdleCancelsCanBothWrite | core/crates/control/src/dispatch.rs:345-389 | a run in which two concurrent cancels of one idle task both write the cancelled record, both re-reads successful and before either save |
| DispatchQueues.DispatchQueue.constructor | core/crates/control/src/queue.rs:37-43 | empty, nothing unfinished |
| DispatchQueues.DispatchQueue.PutKeyed | core/crates/control/src/queue.rs:53-58 | the item goes to the back and one more is unfinished |
| DispatchQueues.DispatchQueue.TryPopWhere | core/crates/control/src/queue.rs:68-72 | takes the first item whose session is free and leaves the others in order; takes nothing exactly when every session is busy |
| DispatchQueues.DispatchQueue.TaskDone | core/crates/control/src/queue.rs:93-102 | one less unfinished, never below zero; idle is announced exactly at zero |
| DispatchQueues.DispatchQueue.FillSlots | core/crates/control/src/dispatch.rs:126-133 | fills the free slots: at most n in flight with distinct sessions, the popped items in order |
| ParallelDispatch.RunKeepsInv | core/crates/control/src/dispatch.rs:118-148 | over every run: at most n in flight with distinct sessions, the completion count exact, per-session order kept, and nothing runnable forgotten while waiting |
| ParallelDispatch.SerialPerSessionBoundedAcross | core/crates/control/src/dispatch.rs:109-117 | at most n tasks in flight, never two of one session, also at the moment of each start |
| ParallelDispatch.StartsInPutOrder | core/crates/control/src/dispatch.rs:116-117 | what a session has started is a prefix of what was put for it, in put order, and all of it once the queue is empty |
| ParallelDispatch.NeverSleepsOnWork | core/crates/control/src/dispatch.rs:122-146 | if the dispatcher waits with a free slot and a queued item of a free session, a notification has fired or is about to |
| ParallelDispatch.CompletionCountIsExact | core/crates/control/src/dispatch.rs:41-51 | at every step, also after an abort, puts = queued + in flight + done |
| ParallelProgress.NextStepIs | core/crates/control/src/dispatch.rs:122-148 | what the dispatcher can do next at each point of its loop: start an item while a slot is free and an item's session is, else wait |
| ParallelProgress.PopStartsFirstFree | core/crates/control/src/dispatch.rs:126-133 | starting takes the first item of a free session out of the queue and leaves the rest as it stood |
| ParallelProgress.PollEndsWaitIff | core/crates/control/src/dispatch.rs:137-146 | over every run a poll ends the wait if and only if a task has finished or a notification has come, and otherwise changes nothing; the finished are out of flight and nobody else |
| ParallelProgress.NotificationStays | core/crates/control/src/dispatch.rs:118-124 | a notification stays until a poll uses it up |
| ParallelProgress.WakesArePaid | core/crates/control/src/queue.rs:53-58 | notifications used up and kept are together at most those sent |
| ParallelProgress.EveryPutIsNotified | core/crates/control/src/queue.rs:53-58 | at every moment puts = notifications sent + still to be sent |
| ParallelProgress.RegisterStartsRound | core/crates/control/src/dispatch.rs:122-125 | a round begins with the notification kept so far and changes nothing else |
| ParallelProgress.RoundStartsFirstFree | core/crates/control/src/dispatch.rs:122-133 | from the top of the loop, with a free slot and an item of a free session, the first such item is started |
| ParallelProgress.StopFillingWaits | core/crates/control/src/dispatch.rs:126-137 | when nothing more can be started the dispatcher waits, without having touched the queue |
| ParallelProgress.WaitingIsNotified | core/crates/control/src/dispatch.rs:122-146 | over every run a dispatcher waiting with a free slot over an item of a free session has been notified or is about to be |
| ParallelProgress.WaitEnds | core/crates/control/src/dispatch.rs:137-146 | every such run goes on, with at most the notification owed and one poll, to the top of the loop |
| ParallelProgress.WaitingWorkIsStarted | core/crates/control/src/dispatch.rs:122-146 | and from there, in two steps more, the first such item is started |
| SteerTargets.TargetIsNewestEligible | core/crates/control/src/dispatch.rs:478-512 | the target is the latest eligible task by creation time then id (owned; running ones only if any owned one runs), and there is none exactly when nothing is eligible |
| SteerTargets.OthersAreEarlier | core/crates/control/src/dispatch.rs:490-512 | every other eligible task was created earlier, or at the same time with the id that is smaller by code point |
| SteerTargets.ListingOrderIsIrrelevant | core/crates/control/src/dispatch.rs:490-494 | two listings of the same tasks give the same target, whatever the order the store returned |
| DingtalkQueue.StreamQueue.constructor | edge/internal/dingtalk/stream.go:164-171 | empty queue, empty wake slot |
| DingtalkQueue.StreamQueue.Append | edge/internal/dingtalk/stream.go:276-278 | the frame goes to the back; the wake slot is untouched |
| DingtalkQueue.StreamQueue.Signal | edge/internal/dingtalk/stream.go:279-282 | the one-slot wake channel is full afterwards, without blocking |
| DingtalkQueue.StreamQueue.Dequeue | edge/internal/dingtalk/stream.go:285-295 | the oldest frame, or nothing exactly when the queue is empty; the rest keeps its order |
| DingtalkStream.RunKeepsInv | edge/internal/dingtalk/stream.go:275-323 | over every interleaving of reader and dispatcher: frames conserved in order, acknowledgements owed exactly, no wake-up lost |
| DingtalkStream.SleepsOnlyOverEmptyOrSignalledQueue | edge/internal/dingtalk/stream.go:308-316 | a dispatcher asleep over a non-empty queue can be woken at once, or the producer is about to send the token |
| DingtalkStream.EveryFrameAnsweredOnceInOrder | edge/internal/dingtalk/stream.go:214-246 | handled frames are a prefix of the bot messages received; each is acknowledged once, in that order, with 200 exactly when its handler returned nil; every other frame got one 200 from the read loop, in order |
| DingtalkStream.NothingAcknowledgedAfterExit | edge/internal/dingtalk/stream.go:297-307 | once the dispatcher has left, no further acknowledgement is sent and what is queued stays queued |
| DingtalkStream.StoppedIff | edge/internal/dingtalk/stream.go:206-246 | the read loop has ended exactly when a read failed or a disconnect frame came |
| DingtalkStream.ReceivesUntilStopped | edge/internal/dingtalk/stream.go:206-246 | frames are received until then and never after; only the token of a queued bot message delays the next one |
| DingtalkStream.AcksSpelled | edge/internal/dingtalk/stream.go:214-246 | a system frame is answered with its own data, an event and any other callback with a fixed text, a bot message with 200 and a fixed text or 500 and none |
| DingtalkProgress.NextStepIs | edge/internal/dingtalk/stream.go:275-323 | what the dispatcher can do next wherever it stands, and when the producer owes a token |
| DingtalkProgress.ClosedAndExitedIff | edge/internal/dingtalk/stream.go:297-323 | over every run the connection is closed from its closing on, and the dispatcher gone exactly from its leaving on, never before the closing |
| DingtalkProgress.SlotIsFullIff | edge/internal/dingtalk/stream.go:279-316 | the wake slot is full exactly when a token was sent since the last wake-up, however many were |
| DingtalkProgress.TokensMatchBots | edge/internal/dingtalk/stream.go:275-283 | one token is sent for each bot message received, the last perhaps still to be sent |
| DingtalkProgress.QueuedIsHandled | edge/internal/dingtalk/stream.go:297-323 | over every run, on an open connection the oldest queued frame can be brought to its handler in four steps at most, wherever the dispatcher stands: none is forgotten |
| DingtalkProgress.ClosedTakesOneMore | edge/internal/dingtalk/stream.go:297-305 | once the connection is closed at most one more frame is taken, and none unless the dispatcher had just passed its check |
| DingtalkProgress.ClosedCanLeave | edge/internal/dingtalk/stream.go:297-316 | the dispatcher of a closed connection can leave in four steps at most, whatever is queued |
| BoundedMaps.BoundedMap.constructor | edge/internal/wecom/platform.go:596-598 | an empty table |
| BoundedMaps.BoundedMap.Get | edge/internal/wecom/platform.go:600-603 | the value of the key, or nothing when it is absent |
| BoundedMaps.BoundedMap.PutEntry | edge/internal/wecom/platform.go:605-615 | updating keeps the place of the key, a new key goes last, and the oldest entries beyond the capacity are gone |
| BoundedMaps.BoundedMap.EvictOldest | edge/internal/wecom/platform.go:610-614 | exactly the newest entries that fit remain, in order |
| BoundedMaps.BoundedMap.Each | edge/internal/wecom/platform.go:617-623 | visits every entry once, oldest first |
| BoundedMaps.PutKeepsNewest | edge/internal/wecom/platform.go:589-589 | a put keeps the capacity, holds what it put, and loses at most the single oldest entry |
| BoundedMaps.PutCostsOne | edge/internal/wecom/platform.go:605-615 | a put for another key brings an entry at most one place nearer to eviction and never changes its value |
| BoundedMaps.EntryStays | edge/internal/wecom/platform.go:605-615 | an entry outlives as many further puts as there are places below and free places above it, with the value last put for it |
| BoundedMaps.NewEntrySlack | edge/internal/wecom/platform.go:605-615 | a key just added survives capacity - 1 further puts |
| WecomStreamCells.StreamCell.constructor | edge/internal/wecom/stream.go:134-138 | a stream as it was opened |
| WecomStreamCells.StreamCell.Update | edge/internal/wecom/stream.go:209-231 | a finished stream sends nothing and stays; otherwise one frame goes out, which finishes for a terminal card or at nine minutes, and content and finished change only if the send returned nil |
| WecomStreamCells.StreamCell.AutoFinish | edge/internal/wecom/stream.go:257-271 | a finish frame goes out exactly when the stream is unfinished and nine minutes old; it is finished only if the send returned nil and the content never changes |
| WecomStreams.RunKeepsInv | edge/internal/wecom/stream.go:194-273 | over every interleaving of openings, updates and sweeps: stored content, task number and finish are what the log of sent frames says, and every frame in the log has exactly the content its card or the last push calls for, with the pointer of the task number last set |
| WecomStreams.FinishedStreamsStaySilent | edge/internal/wecom/stream.go:209-214 | after a finish frame whose send returned nil, no frame goes out on that stream |
| WecomStreams.OldStreamsOnlyFinish | edge/internal/wecom/stream.go:219-225 | every update or sweep frame at nine minutes or more is a finish frame |
| WecomStreams.StoredContentHasNoPointer | edge/internal/wecom/stream.go:43-43 | the stored content is the rendering last pushed, without a progress pointer, and the stored task number the one last set; a sweep that fails changes neither |
| WecomStreams.SweepFrameIs | edge/internal/wecom/stream.go:257-262 | a sweep frame is the rendering last pushed and one pointer to the task number last set |
| WecomStreams.RetriedSweepSendsTheSame | edge/internal/wecom/stream.go:263-271 | a sweep that tries a stream again, with no update in between, sends the very same frame |
| WecomStreams.SweepLeavesNothingOld | edge/internal/wecom/stream.go:248-273 | for a sweep from its start to its end whose sends all returned nil: every stream in the table when it started is finished or not nine minutes old when it ends |
| WecomStreams.SweepKeepsSnapshot | edge/internal/wecom/stream.go:250-257 | throughout a sweep the streams it visits are all those in the table when it started, and its clock the one read then |
| WecomStreams.UpdateFramesSpelled | edge/internal/wecom/stream.go:209-231 | over every run a card's frame finishes exactly for a delivered, failed or cancelled card or at 540 seconds, and carries the card with the pointer text only when it finishes for age alone and a task number is known |
| WecomStreams.SendsUnlessClosed | edge/internal/wecom/stream.go:209-262 | an update sends one frame exactly when no finish frame got through before; a visit of the sweep, when moreover the stream is 540 seconds old |
| StreamTable.WaitsToEnterIff | edge/internal/wecom/stream.go:134-150 | over every run a stream waits to be entered exactly from an opening whose send returned nil until it is entered |
| StreamTable.EnteredOnce | edge/internal/wecom/stream.go:134-150 | no stream is entered twice |
| StreamTable.TableIsNewest | edge/internal/wecom/stream.go:134-150 | the table holds the 4096 streams entered last, in the order they were |
| StreamTable.SweepVisitsEach | edge/internal/wecom/stream.go:248-273 | a sweep that ends has visited just the streams the table held at its start, oldest first, and another can begin |
| WecomWaiters.PendingTable.constructor | edge/internal/wecom/client.go:84-84 | nobody waits |
| WecomWaiters.PendingTable.RegisterWaiter | edge/internal/wecom/client.go:126-129 | the waiter stands last in its queue; other queues as before |
| WecomWaiters.PendingTable.Drop | edge/internal/wecom/client.go:158-174 | the waiter is out of its queue, the others keep their order, and an emptied queue loses its key |
| WecomWaiters.PendingTable.TakeOldest | edge/internal/wecom/client.go:176-191 | hands back the oldest waiter of the key and removes it alone; nobody waiting changes nothing |
| WecomWaiters.DroppedAt | edge/internal/wecom/client.go:163-168 | cutting the found position out is removing that waiter |
| WecomClient.RunKeepsInv | edge/internal/wecom/client.go:124-191 | over every interleaving of requests, acknowledgements, time-outs and failures: queues hold open unanswered requests of their key in registration order |
| WecomClient.ReplySlotIsAlwaysFree | edge/internal/wecom/client.go:190-190 | whenever an acknowledgement is resolved the one-slot channel it goes to is empty and was never used: the send under the lock cannot block |
| WecomClient.WaitersStandOnce | edge/internal/wecom/client.go:67-69 | a waiter stands at one position of one queue at most, and a finished request at none |
| WecomClient.NothingLeftBehind | edge/internal/wecom/client.go:124-174 | no key maps to an empty queue, and a request stands in its queue exactly while it is open without a reply |
| WecomClient.AnsweredInRegistrationOrder | edge/internal/wecom/client.go:67-69 | on one key answered requests are in registration order, all older than those still waiting, and an answered request did get its reply from there |
| WecomClient.AnsweredOldestFirst | edge/internal/wecom/client.go:176-191 | between any two moments of a run the answered waiters of a key only grow, and each one added was the oldest waiting there when an acknowledgement on that key came |
| WecomClient.ReplyIsItsOwn | edge/internal/wecom/client.go:130-191 | over every run the reply a request takes is the one brought by the acknowledgement that found it the oldest waiter of its own key |
| WecomClient.OutcomeIff | edge/internal/wecom/client.go:124-156 | a request ends as answered, not written or given up exactly when it took its reply, its write failed or its wait was lost |
| WecomConnection.BackoffIsCappedDoubling | edge/internal/wecom/platform.go:131-144 | the delay before reconnect k is min(2^(k-1), 30) seconds, cut-off and all |
| WecomConnection.RunKeepsInv | edge/internal/wecom/platform.go:314-417 | over every interleaving, the two stores of entering standby taken apart: at most the current connection is alive, standby is set exactly when a disconnected event was or is being handled, and attempt counts the failures |
| WecomConnection.EveryDialIsSafe | edge/internal/wecom/platform.go:319-346 | at every dial no earlier connection reads, dispatches or holds an unhandled callback, standby is false, and the sleep before it was min(2^(k-1), 30) for the k failures so far, counting a lost connection as the first |
| WecomConnection.StandbyIsPermanent | edge/internal/wecom/platform.go:410-417 | standby once set stays set |
| WecomConnection.KickedNeverDials | edge/internal/wecom/platform.go:311-313 | once a disconnected event has been handled no dial ever starts again |
| WecomConnection.ConnectedInStandbyIff | edge/internal/wecom/platform.go:401-417 | standby and connected are seen together if and only if the connection is online with nothing cleared since it went online, and either it went online with standby already set or its dispatcher stands between the two stores |
| WecomConnection.ConnectedBetweenStores | edge/internal/wecom/platform.go:412-414 | a run in which an ordinary kick passes through that state between the stores |
| WecomConnection.ConnectedInStandbyHappens | edge/internal/wecom/platform.go:353-355 | a run in which it stays so: the event is handled before the subscription's answer is acted on |
| WecomReconnect.HandledInOrder | edge/internal/wecom/client.go:195-240 | over every run a connection's callbacks are handled in the order they were read, and what is not handled yet waits |
| WecomReconnect.RunsUntilExit | edge/internal/wecom/client.go:195-240 | a connection is read until its read loop exits and dispatched until its dispatcher does, which leaves nothing unhandled |
| WecomReconnect.RestsForAReason | edge/internal/wecom/platform.go:311-333 | the loop returns only when cancelled and parks only in standby |
| WecomReconnect.ComesToRest | edge/internal/wecom/platform.go:311-376 | over every run, wherever it stands, once its connection is lost or its subscription fails the loop comes to rest: returned if cancelled, else parked if a disconnected event was read, else ready to dial again |
| WecomReconnect.RestIsRest | edge/internal/wecom/platform.go:320-346 | parked it stays until cancelled, returned for good, and ready it can only dial |
| SendWindows.SendWindow.constructor | edge/internal/wecom/ratelimit.go:27-32 | nothing sent yet |
| SendWindows.SendWindow.Allow | edge/internal/wecom/ratelimit.go:35-45 | the ring answers as the plain list of accepted times does, records an accepted send and nothing else |
| SendWindows.RingPositions | edge/internal/wecom/ratelimit.go:39-43 | the slot written next is the oldest remembered send, and no other remembered send is in it |
| SendWindows.RingIsSlidingWindow | edge/internal/wecom/ratelimit.go:27-45 | with a clock that does not go back, a send is refused exactly when thirty accepted ones lie less than 60 s in the past |
| SendWindows.ThirtyApartIsAMinuteApart | edge/internal/wecom/ratelimit.go:19-22 | over every run, accepted send i + 30 is at least 60 s after accepted send i |
| SendWindows.NoSpanHoldsMore | edge/internal/wecom/ratelimit.go:1-6 | so any two accepted sends thirty or more apart in order are at least 60 s apart in time |
| SendWindows.ChatsAreIndependent | edge/internal/wecom/ratelimit.go:72-79 | asking for one chat leaves the window of every other chat in the table as it was, except the oldest when a new chat evicts it |
| SendWindows.WindowIsOwnRequests | edge/internal/wecom/ratelimit.go:72-79 | over every run of requests to the table, while a chat's window stays in it, its accepted times are those of a gate asked at that chat's own times alone |
| SendWindows.AnswerIsOwnRequests | edge/internal/wecom/ratelimit.go:35-45 | so a chat is refused exactly when thirty of its own accepted sends lie less than 60 s in the past |
| SendWindows.RecentAreLast | edge/internal/wecom/ratelimit.go:19-22 | which, times being ordered, are its last ones |
| TokenBuckets.TokenBucket.constructor | edge/internal/feishu/api.go:538-560 | a full bucket at the current time |
| TokenBuckets.TokenBucket.RefillNow | edge/internal/feishu/api.go:562-570 | tokens grow with the time passed, up to the capacity; a clock that stands or goes back changes nothing |
| TokenBuckets.TokenBucket.Acquire | edge/internal/feishu/api.go:583-606 | more than the capacity is refused at once and changes nothing; otherwise tokens, clock, outcome and reported wait are those of the passes over the sleeps to come |
| TokenBuckets.AcquireKeepsValid | edge/internal/feishu/api.go:586-606 | tokens stay between 0 and the capacity over every Acquire, whatever the clock does, for requests that are not negative |
| TokenBuckets.NegativeRequestOverfills | edge/internal/feishu/api.go:586-606 | on a full bucket that invariant holds exactly for requests that are not negative: the code refuses none |
| TokenBuckets.OneSleepSuffices | edge/internal/feishu/api.go:593-605 | if the sleeper advances the clock by at least the delay asked for, one sleep grants the request, and the wait reported is that delay |
| TokenBuckets.AcquireRateBound | edge/internal/feishu/api.go:522-525 | over every run of Acquire calls on a clock that does not go back, the tokens granted at clock times in [s, t] are at most capacity + rate * (t - s), for every s <= t |
| TokenBuckets.RateBound | edge/internal/feishu/api.go:522-525 | the same bound for every run of refill-and-take passes of any callers, at the latest time the bucket has seen |
| TokenBuckets.GrantsAreFunded | edge/internal/feishu/api.go:562-596 | grants up to t never exceed what the bucket held plus what flowed in |
| TokenBuckets.AcquireIsTouches | edge/internal/feishu/api.go:593-605 | an Acquire is a run of refill-and-take passes: same final bucket, a grant exactly when it was granted, and stamped with the clock when Acquire returned |
| TokenBuckets.StampIsNow | edge/internal/feishu/api.go:562-596 | with a clock that does not go back a grant is stamped with the moment it was made |
| TokenBuckets.RefillIs | edge/internal/feishu/api.go:562-570 | a refill adds exactly the rate times the time passed while that fits, and fills the bucket otherwise |
| TokenBuckets.RefillTwiceIsOnce | edge/internal/feishu/api.go:562-570 | refilling in between changes nothing |
| TokenBuckets.AcquireClock | edge/internal/feishu/api.go:593-605 | an Acquire uses the sleeps in order and moves the clock by just those used; only the last can have been cancelled, and then it is |
| TokenBuckets.FreshRefillsInAMinute | edge/internal/feishu/api.go:538-560 | a new bucket is full; emptied, it has its rate per minute back a minute later, or is full |
| ChatPacers.ChatPacer.constructor | edge/internal/feishu/outbound.go:130-136 | no buckets |
| ChatPacers.ChatPacer.Oldest | edge/internal/feishu/outbound.go:177-183 | some chat that no other chat was used before |
| ChatPacers.ChatPacer.DropIdle | edge/internal/feishu/outbound.go:171-175 | exactly the chats looked up less than a second ago remain, unchanged |
| ChatPacers.ChatPacer.EvictLocked | edge/internal/feishu/outbound.go:170-186 | idle chats go; if the live ones fit below the cap all of them stay, otherwise exactly 1023, and no dropped one was used later than a kept one |
| ChatPacers.ChatPacer.BucketFor | edge/internal/feishu/outbound.go:151-168 | at most 1024 buckets; a known chat keeps its bucket and only its time of use changes; a new chat gets a full bucket of its own, evicting only from a full table |
| ChatPacers.ChatPacer.AddBucket | edge/internal/feishu/outbound.go:162-167 | a fresh full bucket under the chat, every other entry as before |
| ChatPacers.ChatPacer.Acquire | edge/internal/feishu/outbound.go:138-149 | one token of that chat's bucket and of no other; no chat takes nothing |
| ChatPacers.CardBook.RememberCard | edge/internal/feishu/outbound.go:188-203 | an empty card or chat changes nothing; otherwise the bounded table with this card put |
| ChatPacers.CardBook.ChatOfCard | edge/internal/feishu/outbound.go:205-210 | the chat last remembered for a card still in the table, or the empty string |
| ChatPacers.DropUnobservableIffRefilled | edge/internal/feishu/outbound.go:105-109 | dropping a bucket and making a new one gives the same grants at the same times, for every later run of sends, if and only if the bucket would have been full by now |
| ChatPacers.UntouchedIdleIsRefilled | edge/internal/feishu/outbound.go:108-109 | that is so for a bucket looked up a second or more ago and not drawn from since |
| ChatPacers.IdleButNotRefilled | edge/internal/feishu/outbound.go:105-109 | six sends asked for at time 0 leave a bucket that at time 1 is not full; a new one instead lets eleven sends through in one second |
| ChatPacers.EvictUnrefilled | edge/internal/feishu/outbound.go:151-175 | the same on a pacer: after six sends the slot was last used at time 0, counts as idle at time 1, and eviction drops it although that can be noticed: the comment on eviction is too strong |
| Markdown.LabelMarkdown | docker/sandbox/aite/aite_label.py:528-546 | the labelled text: mark, opening fence, kept lines, the label, closing fence, body |
| Markdown.KeptAreOthers | docker/sandbox/aite/aite_label.py:535-542 | only lines of the file are kept and none of them is a line of the key |
| Markdown.UndoubledDoubled | docker/sandbox/aite/aite_label.py:524-525 | the quoting is undone by the reader for every payload |
| Markdown.SplitLinesOfTerminated | docker/sandbox/aite/aite_label.py:521-521 | splitlines cuts LF and CRLF text exactly at its line ends |
| Markdown.LabelledFileSplitsBack | docker/sandbox/aite/aite_label.py:505-521 | a labelled file splits into the same byte-order mark, the kept lines in order with the label behind them, and the same body |
| Markdown.ReadsBackIff | docker/sandbox/aite/aite_label.py:549-557 | reading a labelled file gives the payload if and only if no kept line would itself close the front matter and the payload has no line break |
| MarkdownRelabelling.RelabellingReplacesIff | docker/sandbox/aite/aite_label.py:528-546 | for every file and all payloads: labelling twice is, character for character, labelling once with the second payload if and only if no kept line would close the front matter and the first payload folds |
| MarkdownRelabelling.OneLineFolds | docker/sandbox/aite/aite_label.py:536-541 | a payload without line breaks folds: its entry goes away as one |
| MarkdownRelabelling.SplitOfLabelled | docker/sandbox/aite/aite_label.py:505-521 | what a labelled file is split into for any payload, however its line breaks fall |
| Markdown.RelabelKeepsOtherLines | docker/sandbox/aite/aite_label.py:535-543 | the other front-matter lines are the same before and after labelling |
| Markdown.PlainBreaksHideNothing | docker/sandbox/aite/aite_label.py:500-521 | a file whose only line ends are LF or CRLF always meets that condition |
| Markdown.HiddenLabel | docker/sandbox/aite/aite_label.py:500-521 | when it is not met, the labelled file splits at the first such line and reads as unlabelled |
| Markdown.LabelCanBeLost | docker/sandbox/aite/aite_label.py:521-521 | a file with one U+2028 before dashes loses its label: splitlines breaks where the fence pattern does not |
| Markdown.ReadIsOneLine | docker/sandbox/aite/aite_label.py:549-557 | what the reader returns never holds a line break |
| FrontMatter.OtherLinesAreTheRest | docker/sandbox/aite/aite_label.py:535-543 | the lines kept are exactly those i for which no key line j <= i has only blank-started lines from j + 1 to i, each once and in order |
| FrontMatter.LabelIs | docker/sandbox/aite/aite_label.py:528-546 | the labelled text character for character: mark, fence, those lines, the label with its quotes doubled, fence, body |
| FrontMatter.KeyLineIff | docker/sandbox/aite/aite_label.py:502-502 | a key line is AIGC, blanks or none, and a colon at the start of the line |
| FrontMatter.FencesAre | docker/sandbox/aite/aite_label.py:500-501 | a fence is three dashes, or to close three dots, then blanks or none and at most one carriage return |
| FrontMatter.BreaksAre | docker/sandbox/aite/aite_label.py:521-521 | the eleven characters at which splitlines breaks |
| FrontMatter.SplitLinesIs | docker/sandbox/aite/aite_label.py:521-521 | splitlines cuts off the first line at its first ending, CRLF being one, and goes on |
| FrontMatter.FileIsSplit | docker/sandbox/aite/aite_label.py:505-521 | a file of mark, opening fence, lines that close nothing, closing fence and body is split into just these |
| FrontMatter.SplitIsFile | docker/sandbox/aite/aite_label.py:505-521 | whatever is split off was such a file; otherwise there is no front matter and the text comes back whole |
| FrontMatter.ReadIs | docker/sandbox/aite/aite_label.py:549-557 | what is read is the first key line's value between its white space, unquoted if it stands in single quotes |
| FrontMatter.NothingReadIff | docker/sandbox/aite/aite_label.py:549-557 | nothing is read exactly without front matter or a key line in it |
| FrontMatter.UndoubledIs | docker/sandbox/aite/aite_label.py:556-556 | unquoting keeps everything but pairs of quotes, from the left, and makes one of each pair |
| Jpeg.JpegSplit | docker/sandbox/aite/aite_label.py:253-273 | the segments and the rest from the scan marker on, or the error of the first defect |
| Jpeg.SkipFillBytes | docker/sandbox/aite/aite_label.py:261-262 | the last fill byte before a marker, or none when the data ends first |
| Jpeg.ReadSegment | docker/sandbox/aite/aite_label.py:263-272 | an error exactly when a length field is cut off; within the data and with an honest length, the segment packs to the very bytes it was read from, up to where the next one starts |
| Jpeg.SplitSegments | docker/sandbox/aite/aite_label.py:257-273 | the same from behind the start marker |
| Jpeg.JpegJoin | docker/sandbox/aite/aite_label.py:276-284 | the joined bytes, or an error exactly when some payload does not fit its length field |
| Jpeg.SplitUndoesJoin | docker/sandbox/aite/aite_label.py:253-284 | splitting what was joined gives back the image, for every image that can stand in a file |
| Jpeg.SplitYieldsSound | docker/sandbox/aite/aite_label.py:253-273 | splitting yields only such images |
| Jpeg.JoinUndoesSplitIff | docker/sandbox/aite/aite_label.py:253-284 | joining what was split gives back the data if and only if the data has no fill bytes |
| Jpeg.PackedOfSplit | docker/sandbox/aite/aite_label.py:253-284 | joining what was split gives back the data without the fill bytes before its markers, all of them 0xFF, and loses nothing else |
| Jpeg.LengthIsSound | docker/sandbox/aite/aite_label.py:270-272 | a length field below two never survives: it points back into itself |
| Jpeg.LabelJpeg | docker/sandbox/aite/aite_label.py:357-375 | the relabelled file, with the errors of splitting and joining |
| Jpeg.TakeLabels | docker/sandbox/aite/aite_label.py:357-367 | the segments that are no labels in order, the first EXIF payload and the first XMP packet that is not empty |
| Jpeg.RelabelledSegments | docker/sandbox/aite/aite_label.py:368-375 | one EXIF then one XMP segment replace all earlier ones; every other segment stays in order |
| Jpeg.LabelledImage | docker/sandbox/aite/aite_label.py:357-375 | labelling fails exactly when splitting fails or a new payload is too long; otherwise the scan bytes are the same and the segments read back are the relabelled ones |
| Jpeg.RepeatedLabels | docker/sandbox/aite/aite_label.py:357-375 | after any number of labellings, each with its own builders: one EXIF, one XMP, scan bytes and other segments as at first |
| Jpeg.LabelSeesLastLabel | docker/sandbox/aite/aite_label.py:361-371 | a later labelling builds on the payloads the earlier one wrote |
| JpegLayout.HeadersSpell | docker/sandbox/aite/aite_label.py:243-244 | the headers are "Exif" with two zero bytes and the XMP namespace with one |
| JpegLayout.MarkersAre | docker/sandbox/aite/aite_label.py:264-267 | which markers end the header and which stand without a length |
| JpegLayout.LabelsAre | docker/sandbox/aite/aite_label.py:362-366 | a label segment is an APP1 whose payload begins with one of the two headers |
| JpegLayout.LabelledSegmentsAre | docker/sandbox/aite/aite_label.py:368-375 | the place of the labels: when the first segment that is no label is an APP0, that one, EXIF, XMP and the others in order; otherwise EXIF, XMP and all of them |
| JpegLayout.OldExifIs | docker/sandbox/aite/aite_label.py:361-364 | the EXIF payload built on is the first one of the file |
| JpegLayout.OldXmpIs | docker/sandbox/aite/aite_label.py:361-366 | the XMP packet built on is the first one that is not empty |
| JpegLayout.DefectIsReported | docker/sandbox/aite/aite_label.py:257-273 | a file of sound segments and then a defect is refused with that defect |
| JpegLayout.StartIsChecked | docker/sandbox/aite/aite_label.py:254-255 | without the start marker it is refused as no JPEG file, and for no other reason |
| TaskNo.EncodeTaskNo | core/crates/contracts/src/session.rs:175-189 | the number's text for n of at least 1, an error carrying n otherwise |
| TaskNo.AlphabetsAgree | edge/internal/dingtalk/anchor.go:14-16 | the 32 digits the core prints are those the edge accepts, in the same order of value |
| TaskNo.NumberOfDigits | core/crates/contracts/src/session.rs:179-185 | the digits read back to n and never start with a zero |
| TaskNo.DigitsOfNumber | core/crates/contracts/src/session.rs:179-185 | every digit string without a leading zero is printed for some number |
| TaskNo.EncodingIsInjective | core/crates/contracts/src/session.rs:174-189 | two numbers have one text only if they are equal |
| TaskNo.EncodingVectors | core/crates/contracts/src/session.rs:174-174 | 1, 17, 32 and 1000 give #A1, #AH, #A10 and #AZ8 |
| TaskNo.ScanFindsNothingIff | edge/internal/dingtalk/anchor.go:18-31 | the scan finds nothing exactly when no mention stands anywhere |
| TaskNo.ScanFindsFirstMention | edge/internal/dingtalk/anchor.go:18-31 | otherwise it finds the first mention, with its longest run of digits, in upper case |
| TaskNo.PrintedIsFound | edge/internal/dingtalk/anchor.go:18-31 | a printed number in either case, after text without '#' and before nothing or a character that does not go on with it, is what the scan finds |
| TaskNo.PrintedIsFoundIff | edge/internal/dingtalk/anchor.go:20-28 | with no further '#' behind it, it is found if and only if what follows does not go on with it |
| TaskNo.FoundIsPrintableIff | edge/internal/dingtalk/anchor.go:16-28 | what the scan finds is a number the core can have printed if and only if it has no leading zero and no Kelvin sign, which case folding lets through |
| TaskMentions.FoundIff | edge/internal/dingtalk/anchor.go:14-31 | for every text: what is found is the first '#', A of either case and digits, each character listed, with neither a further digit nor an ASCII letter behind, its letters made capitals; nothing if there is none |
| TaskMentions.DigitFoldIs | edge/internal/dingtalk/anchor.go:14-16 | the characters that count as digits, one by one |
| TaskMentions.RespelledIsFound | edge/internal/dingtalk/anchor.go:16-31 | a printed number with any of its letters made small is found as printed, with no '#' before or behind it, if and only if what follows does not go on with it |
| WorkPath.NormalizeWorkPath | edge/internal/sandbox/workdir.go:30-71 | the normalised path, or blank, not absolute, past the root, outside, in that order of precedence |
| WorkPath.RequireFilePath | edge/internal/sandbox/workdir.go:75-87 | the same, but the work directory as given is refused |
| WorkPath.PastRootIff | edge/internal/sandbox/workdir.go:55-59 | a path is refused for passing the root exactly when some prefix has more ".." than names |
| WorkPath.StackHoldsSurvivors | edge/internal/sandbox/workdir.go:50-63 | the result is, in order, just the names that the path never climbs back over |
| WorkPath.NormalizedIsFixed | edge/internal/sandbox/workdir.go:65-70 | a result has only proper names for segments and normalises to itself |
| WorkPath.InsideIsSegmentPrefix | edge/internal/sandbox/workdir.go:66-69 | the textual test for being inside is, for all strings, that the directory's segments are a prefix of the path's |
| WorkPath.AcceptedIff | edge/internal/sandbox/workdir.go:28-71 | below a work directory other than the root, a path is accepted exactly when it is not blank, absolute, never passes the root, and resolves to names beginning with the directory's |
| WorkPath.RootAcceptsOnlyItself | edge/internal/sandbox/workdir.go:38-42 | with the root as work directory only paths that resolve to the root are accepted |
| WorkPath.OnlyCanonicalWorkdirAccepts | edge/internal/sandbox/workdir.go:65-69 | a work directory that is not itself normalised accepts nothing |
| WorkPath.DirectoryPassesIff | edge/internal/sandbox/workdir.go:75-85 | the work directory itself passes for a file if and only if it was given with a trailing slash |
| WorkPath.FilesPass | edge/internal/sandbox/workdir.go:73-87 | every other accepted path passes unchanged |
| PathRewriting.DotsAreNothing | edge/internal/sandbox/workdir.go:51-53 | an empty segment or a dot anywhere in a path changes nothing |
| PathRewriting.ClimbingUndoesName | edge/internal/sandbox/workdir.go:54-63 | a name followed by a double dot anywhere in a path changes nothing |
| PathRewriting.ClimbingPassesRoot | edge/internal/sandbox/workdir.go:55-59 | a path that begins with a double dot passes the root, whatever follows |
| PathRewriting.NamesStay | edge/internal/sandbox/workdir.go:60-63 | proper names alone stand for themselves |
| PathRewriting.WorkdirIs | edge/internal/sandbox/workdir.go:31-42 | no work directory means /work, nothing but slashes means the root, and slashes behind one do not count |
| PathRewriting.ErrorIs | edge/internal/sandbox/workdir.go:43-70 | the first of blank, not absolute, past the root and outside that applies; inside means the directory itself or it, a slash and more |
| PathRewriting.FileIs | edge/internal/sandbox/workdir.go:75-87 | a file must moreover not be the work directory as given |
| PathRewriting.ResultIsProper | edge/internal/sandbox/workdir.go:64-70 | a result is a slash and names other than a dot and a double dot, none of them empty, with single slashes between them |
| Egress.ParseOfRendered | edge/internal/egress/policy.go:93-117 | every valid pattern, written plainly, parses back to itself |
| Egress.ParseOfBracketed | edge/internal/egress/policy.go:96-105 | a host in square brackets before its port parses to the same pattern |
| Egress.ParsedIsRenderable | edge/internal/egress/policy.go:93-117 | whatever parses is a valid pattern and means the same as its plain form |
| Egress.WildcardIsLabelSuffix | edge/internal/egress/policy.go:137-143 | a wildcard covers exactly the hosts with at least one more label in front of its own |
| Egress.Compile | edge/internal/egress/policy.go:183-209 | the compiled policy, or the first thing wrong with it: credentials, level, then the allow-hosts in order |
| Egress.CompileEach | edge/internal/egress/policy.go:196-208 | one pattern for each allow-host in order, or the first error |
| Egress.CompileOne | edge/internal/egress/policy.go:197-206 | the pattern of one allow-host, refused when it does not parse or covers a reserved host |
| Egress.CoveredBy | edge/internal/egress/policy.go:201-205 | the first reserved host a pattern covers |
| Egress.CompilesIff | edge/internal/egress/policy.go:182-209 | a policy compiles exactly when it has no credentials, a known level, and each allow-host is by itself a pattern covering no reserved host |
| Egress.NoPatternCoversReserved | edge/internal/egress/policy.go:63-70 | no pattern of a compiled policy, preset included, covers a reserved host |
| Egress.Decide | edge/internal/egress/policy.go:211-239 | which of the five answers, by level, reserved host, host match and port, with host and port matched by one pattern |
| Egress.AllowedIff | edge/internal/egress/policy.go:211-239 | from the policy as written: allowed exactly when the level is not none, the host not reserved, and the level is full on port 80 or 443, or some allow-host or the preset matches host and port together |
| Egress.AddingHostsKeepsAllowed | edge/internal/egress/policy.go:183-239 | a policy with more allow-hosts at the same level allows everything it allowed before |
| EgressRules.AnswerIs | edge/internal/egress/policy.go:211-239 | which of the five answers a policy as written gives, ports and hosts spelled out: level, reserved host, host, port, in that order |
| EgressRules.CustomAllowsIff | edge/internal/egress/policy.go:137-239 | under the custom level any list of plain patterns allows a host and port exactly when the host is not reserved and one pattern fits both: its own port, or 80 or 443 if it names none |
| EgressRules.OneAllowHost | edge/internal/egress/policy.go:145-152 | one allow-host: a host it matches is allowed on the port it names alone, or if it names none on 80 and 443 alone |
| EgressRules.HostListsAre | edge/internal/egress/policy.go:47-70 | the reserved hosts and the preset, name by name |
| EgressRules.AcceptedIff | edge/internal/egress/policy.go:182-209 | a policy is accepted exactly without credentials, at one of the four levels, with patterns that each parse and cover none of the four reserved hosts |
| EgressRules.RefusalIs | edge/internal/egress/policy.go:183-209 | what a policy is refused for: credentials, else its level, else the first allow-host that does not parse or covers a reserved host, with the first such host |
| EgressRules.CompiledIs | edge/internal/egress/policy.go:192-208 | an accepted policy keeps its level and tag, and its patterns stand in order behind the preset |
| EgressRules.HostnameIff | edge/internal/egress/policy.go:119-135 | a host name is labels of 1 to 63 small letters, digits, hyphens and underscores with dots between them |
| EgressRules.SpellingParses | edge/internal/egress/policy.go:88-110 | capitals in a pattern and one dot behind its host make no difference |
| EgressRules.BlanksAround | edge/internal/egress/policy.go:94-94 | nor does white space round it |
| EgressRules.PortRefused | edge/internal/egress/policy.go:102-105 | a port of 0 or beyond 65535 is refused |
| EgressRules.SplitHostPortIff | edge/internal/egress/policy.go:97-101 | a text is host and port exactly when it is both with a colon between them, the host perhaps in square brackets, and no further bracket or colon where it would be ambiguous |
| EgressRules.AtoiIff | edge/internal/egress/policy.go:102-102 | a port number is decimal digits, perhaps with a sign before them |

## Left out

- DispatchProtocol.RunningCancelWritesNothing: the cleanup branch is one step and one record; its sandbox release, evidence append, card update and finalize, and their failures, are not told apart. The chat notice, which both branches send, is not modelled.
- Cancellation.BothWriteIff: a save that reports failure is taken to have stored nothing.
- FollowUps.StrandedIff: the candidates a target is picked from are any list; the store's listing and the earlier filter on cancelled tasks are not modelled, and neither is the evidence append between picking and pushing, which may fail and leave the follow-up unpushed.
- EvidenceChain.Compare: `created_at` and the event kind are not hashed by the code, so nothing is claimed of them; payload side files, torn-line recovery, blank lines and the tip cache are not modelled.
- EvidenceChain.Verify: takes the events as parsed; an absent or unreadable file is not modelled.
- JsonParser.ParseOfText: numbers are integers; floating-point numbers are not modelled.
- TokenBuckets.RateBound: in exact arithmetic; floating-point rounding, the truncation of delays to nanoseconds and a sleeper that wakes early are not modelled.
- TokenBuckets.TokenBucket.Acquire: holds the bucket for the whole call, as the mutex does; the order in which waiters get it is not modelled.
- ChatPacers.EvictUnrefilled: calls eviction directly; that a table of 1024 chats is what calls it is not played through.
- ChatPacers.ChatPacer.Acquire: looks the bucket up and takes from it in one call; another sender in between is covered by the lemmas on runs of touches, not by the method.
- WecomClient.ReplySlotIsAlwaysFree: a lost wait says nothing about delivery, and acknowledgements of one key are matched by queue order, not by what was written on the wire.
- WecomStreams.SweepLeavesNothingOld: speaks of the streams in the table; one evicted from it is no longer swept.
- SendWindows.WindowIsOwnRequests: the table is modelled on the lists of accepted times that the ring class keeps, not on ring objects, and holds while the chat's window stays in it; the list of chats that have written first is not modelled.
- DingtalkStream.EveryFrameAnsweredOnceInOrder: speaks of acknowledgements handed to the connection; a failed write is logged by the source and not modelled, and a frame that is not JSON is skipped.
- Jpeg.LabelJpeg: the EXIF and XMP builders are any functions, the EXIF one with its header in front; their own errors, the watermark re-encoding and reading a label back are not modelled.
- Markdown.ReadsBackIff: compares the payload's JSON text; parsing it is not modelled.
- Egress.PresetPatterns: the thirteen preset names are taken to parse as they stand, each exact and on the default ports.
- Egress.ParsePattern: lower case outside ASCII is modelled only for the two letters that become ASCII; every other one is refused with or without it.
- Integer widths: `u64`, `usize`, Go `int` and `time.Duration` are unbounded here.
- Go slices share their arrays; the queues here are values, so aliasing between an old and a new slice is not modelled.
- The 256-place callback channel of a WeCom connection is unbounded here, and a callback dropped because the connection closed while it was full is simply not read.
- `UpdateCard` on an unknown or non-streamed card sends nothing and is left out, as are card rendering and chat wording.
- Worker internals, session routing beyond the choice of a target, store and file access, Docker, gRPC and the websocket transport: libraries and services the model does not see.
- PNG, OOXML and PDF labels, and the stub hooks: no state and no parser of their own.
