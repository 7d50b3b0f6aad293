# Verified model of the shopping backend's stateful core

A Dafny project that models the parts of the backend where several functions, often in different
files or processes, have to keep one promise together, and proves those promises for every input,
every run or every reachable state. Each SQL transaction, and each read outside one, is one step, all
parties read one clock that does not go back, and rows are maps, sequences or objects. A state machine
or a specification function says what a step does; a class or a method with the source's loops is proved
to do exactly that; lemmas prove the promises about the specification. What each operation does is also
told by the rows alone, without the functions that specify it. `dafny verify dfyconfig.toml` checks
everything.

| modules | what they cover |
|---|---|
| `MessageStore`, `MessageArchive`, `MessagePass`, `MessageReads`, `MessageFailures`, `MessageService` | the two-tier message store: live table, archive objects and the loader whose reads other transactions come between |
| `Sessions`, `SessionEffects`, `SessionRuns`, `SessionRepository` | refresh-session lineages: rotation, replay, logout, retention |
| `OutboxTable`, `OutboxWorkers`, `OutboxLeases`, `OutboxProcessor`, `OutboxWakeup` | the outbox: claims, fencing, leases, back-off, wake-up and the worker's loop |
| `AssetProtocol`, `AssetHandling`, `AssetResults`, `AssetService` | uploads, the normalizer, its results and the delayed purge of deleted assets |
| `RateLimit` | the rate limiter and the cleanup of its table |
| `QueryLimits` | depth and cost of GraphQL queries |
| `ToolGate`, `ToolEffects`, `ToolHandlers` | the tools a language model may call in a turn and the state they share |
| `AiRuns`, `AiRunEffects`, `AiRunRepository`, `AiStreams`, `PublicStream` | the life of an AI run: its rows, its stream's outcome, what a client reads |
| `ConversationPages`, `StreamLog` | keyset paging and the durable stream log's reader |
| `Base64Url`, `Utf8`, `Decimals`, `Cursors`, `Tokens` | cursors and refresh tokens |
| `Queries` | where, order by and limit over row sequences |

Where the code does not keep a promise on all inputs, the condition under which it does is proved in
both directions:

- A load shows the newest fifty messages with their parts exactly when its first read found fifty rows or none of
  the conversation was archived before its second, and all it found are live or without parts at its last
  (`MessageReads.LoadedWellExactly`). Otherwise messages are shown twice or without their parts
  (`MessageFailures.PassBetweenReadsShowsTwice`, `PassBeforePartsHidesThem`).
- The two tiers stay a split of the log exactly when a late message is newer than all of its conversation that is
  archived and a pass archives no row before an older one that it skips (`MessageArchive.AppendKeepsExactly`,
  `PassKeepsExactly`). Otherwise a load can show an old message in the place of a newer one
  (`MessageFailures.OldRowHidesANewer`).
- No archived batch is ever overwritten exactly when no pass puts an object under the key of one
  (`MessageArchive.IntactExactly`), which is sure when no archived id is sent again; sent again, it can make its
  conversation unreadable for good (`MessageFailures.ReusedIdLosesTheArchive`).
- The tenth failure of an outbox event is reported exactly when the worker that persisted it goes on to its
  report and does not stop first (`OutboxWorkers.TenthFailureIsReportedExactly`).
- Two workers handle an event at once exactly when the lease of the earlier claim had run out at the later one
  (`OutboxLeases.OverlapExactly`).
- The cost of a query bounds what it resolves exactly when no field is asked for below a list without pages that
  can have a second entry, such as a message's parts (`QueryLimits.CountWithinComplexityExactly`).
- Objects are never orphaned exactly when an upload that was accepted before its URL expired completes
  within five minutes of the expiry (`AssetProtocol.NeverOrphansExactly`).
- The recording of recommendations that a turn demands can succeed exactly when at most ten products were
  found and the request still counts as shopping (`ToolGate.DemandCanBeMetExactly`).
- An accepted page cursor is the one the server hands out exactly when its bytes have no byte order mark;
  the decoder drops such a mark, so every page has a second cursor (`Cursors.AcceptedCursorIsCanonicalExactly`).
- A stream that has taken an error for its outcome can still end with a completed row exactly when a
  completion that can succeed is waiting (`AiStreams.FailedRunsCompleteExactly`), and runs do get there
  (`AiStreams.ErredRunCompletes`).

Some promises hold more sharply than one would expect: a span of one window admits at most twice the
limit less one, and that is reached (`RateLimit.SpanLimitIsReached`); the two-minute heartbeat limit of the
recovery never adds a run to those whose lease is over (`AiRuns.RecoveryFollowsTheLease`); the cost of a query
is, with the lists without pages counted in, not only a bound but the largest number of fields it can resolve
(`QueryLimits.FullMeetsComplexity`).

## Model

| member | source | states |
|---|---|---|
| `MessagePass.SelectsTheDue` | src/modules/archive/archive.writer.ts:41-59 | a pass selects rows older than ninety days that nobody holds, the oldest first, five hundred or all there are |
| `MessagePass.PassTakesTheDue` | src/modules/archive/archive.writer.ts:35-131 | a finished pass takes exactly those rows from the table, puts each into a batch, and takes nothing younger |
| `MessageStore.CollectTakesNewest` | src/modules/archive/archive.reader.ts:40-70 | the quota loop over manifests, newest first, takes exactly the newest messages that fit the quota, whatever the batch sizes, and fails exactly if one of them lies in a batch that does not read as written |
| `MessageStore.LoadIsRightOrFails` | src/modules/conversations/message.loader.ts:24-57 | with its reads at one moment a load shows the newest fifty messages of the log or fails, and fails exactly if one of them lies in an unreadable batch |
| `MessageArchive.HistoryInv` | src/modules/archive/archive.writer.ts:35-68 | every history, late messages, skipped rows and archived ids that are sent again included, keeps the two tiers a split of the log as long as no message is archived before an older one of its conversation |
| `MessageArchive.AppendKeepsExactly` | src/modules/ai/ai.repository.ts:174-181 | a message that becomes visible late keeps the tiers a split of the log if and only if it is newer than all of its conversation that is archived |
| `MessageArchive.PassKeepsExactly` | src/modules/archive/archive.writer.ts:42-59 | a finished pass does so if and only if it archives no row before an older one of its conversation that another transaction holds and it skips |
| `MessageArchive.LoaderShowsLog` | src/modules/conversations/message.loader.ts:24-57 | after every such history of appends, finished and aborted archive passes, a load with nothing between its reads shows exactly the newest fifty messages of the full log if and only if none of them lies in a batch that was overwritten, and otherwise fails |
| `MessageArchive.ArchivingIsInvisible` | src/modules/archive/archive.writer.ts:42-66 | a finished or aborted pass changes nothing for loads before and after it unless it puts an object under a taken key; then a load may fail but shows nothing else |
| `MessageArchive.PassOnObjects` | src/storage/object-store.ts:52-68 | a pass destroys a batch if and only if it puts an object under the key of one, and no pass restores any |
| `MessageArchive.IntactExactly` | src/modules/archive/archive.writer.ts:106-126 | every batch is as it was written if and only if no pass ever put an object under a taken key |
| `MessageArchive.FreshKey` | src/modules/archive/archive.writer.ts:106-113 | where an id stands for one message only, the object of a new batch overwrites none that a manifest points at |
| `MessageArchive.ExactlyOneTier` | src/modules/archive/archive.writer.ts:74-131 | every message ever appended is live or in exactly one archived batch, exactly once |
| `MessageArchive.OneMessagePerIdExactly` | src/modules/ai/ai.repository.ts:81-92 | an id stands for one message over both tiers if and only if no archived id was sent again, which the check of live ids alone does not prevent |
| `MessageArchive.WithoutReuseNothingIsLost` | src/modules/archive/archive.writer.ts:42-131 | if no archived id is sent again, every batch stays readable and every load with nothing between its reads shows the newest fifty messages of the log |
| `MessageArchive.PendingIsPrefix` | src/modules/archive/archive.writer.ts:41-66 | the oldest-first batch takes from each conversation the head of its live rows, in order, if it takes none newer than one it skips |
| `MessageReads.LoadShowsExactly` | src/modules/conversations/message.loader.ts:25-57 | with any events between its first two reads, a load that does not fail shows the newest fifty messages of the log of its first read if and only if that read found fifty rows or no row of the conversation was archived between the two |
| `MessageReads.ArchivedBetweenIsShownTwice` | src/modules/conversations/message.loader.ts:25-57 | otherwise, when only rows of the first read's log are archived by the second, some message is shown twice |
| `MessageReads.LoadedWellExactly` | src/modules/conversations/message.loader.ts:25-67 | over all three reads each message also has its own parts if and only if, besides, every row that was found is still live when the parts are read or has none |
| `MessageReads.AnsweredLoadSucceeds` | src/modules/archive/archive.reader.ts:40-70 | without reuse, whatever passes interleave, a load whose objects the store answers does not fail |
| `MessageFailures.PassBetweenReadsShowsTwice` | src/modules/conversations/message.loader.ts:25-44 | for every group of up to forty-nine old rows, a pass between the first two reads makes a load show some of them twice |
| `MessageFailures.PassBeforePartsHidesThem` | src/modules/conversations/message.loader.ts:58-67 | for every such group, a pass before the last read makes a load show all of them without their parts |
| `MessageFailures.ReusedIdLosesTheArchive` | src/modules/archive/archive.writer.ts:106-126 | a message archived alone, sent again and archived alone again overwrites its first batch, and the conversation does not load any more |
| `MessageFailures.LeftBehind` | src/modules/archive/archive.writer.ts:42-59 | for every group of old rows, an older row that was held during their pass, or became visible after it, stays live while they are archived |
| `MessageFailures.OldRowHidesANewer` | src/modules/conversations/message.loader.ts:25-57 | with fifty such rows or more, a load then shows the old row in the place of a newer one |
| `MessageService.RankedShare` | src/modules/conversations/conversation.repository.ts:144-174 | the ranked window query gives each conversation exactly its newest rows |
| `MessageService.MessageTiers.Append` | src/modules/ai/ai.repository.ts:174-181 | inserts a message unless a live one has its id, and keeps the tiers a split of the log if and only if it is newer than all of its conversation that is archived |
| `MessageService.MessageTiers.Archive` | src/modules/archive/archive.writer.ts:35-68 | the pass group by group: every row younger than ninety days stays; with the lock and no taken key the oldest due rows go, at most five hundred, all of them if fewer; else no row changes; the tiers stay a split of the log if and only if no row goes before an older skipped one |
| `MessageService.MessageTiers.ArchiveGroup` | src/modules/archive/archive.writer.ts:70-132 | put, read back, manifest and delete amount to the specified move of one group; where its key is taken only the object is overwritten |
| `MessageService.ForConversations` | src/modules/archive/archive.reader.ts:40-70 | the one loop over all manifests gives each conversation what its own manifests yield within its own quota, or fails for one whose batch cannot be read |
| `MessageService.LoadMany` | src/modules/conversations/message.loader.ts:24-95 | for every set of conversations loaded together, over databases that differ at each read, each gets what its own reads yield, with the parts found last and those of all records fetched |
| `MessageService.BatchShowsExactly` | src/modules/conversations/message.loader.ts:24-95 | in such a batch a conversation gets the newest fifty messages of the log of the first read, each with its parts, if and only if that read found fifty or none of its rows was archived before the second, and all it found are still live at the last or have no parts |
| `MessageService.GroupByConversation` | src/modules/archive/archive.writer.ts:58-63 | the map loop keeps first-appearance order and groups by conversation without loss |
| `MessageService.CountByConversation` | src/modules/conversations/message.loader.ts:29-35 | the counting loop counts each conversation |
| `Sessions.StepKeeps` | src/modules/auth/auth.repository.ts:115-254 | every login, refresh, replay, logout, account revocation and retention pass keeps links acyclic and one-to-one and leaves only tips unrevoked |
| `Sessions.ChainAcyclic` | src/modules/auth/auth.repository.ts:163-172 | a walk along successors never meets a session twice, so the recursive queries terminate |
| `Sessions.OneLivePerLineage` | src/modules/auth/auth.repository.ts:182-197 | of one lineage at most one session is unrevoked, and it is the tip |
| `Sessions.LineagesAreLines` | src/modules/auth/auth.repository.ts:189-197 | sessions that reach a common successor lie on one chain |
| `SessionEffects.ChainIsReplacements` | src/modules/auth/auth.repository.ts:163-172 | the recursive query finds exactly the session and those that came to replace it |
| `SessionEffects.RotationRefreshes` | src/modules/auth/auth.repository.ts:115-203 | a refresh is valid if and only if the session is there, its account open, the secret its own and the time before its expiry; an invalid one changes nothing, a replay ends all replacements, a rotation adds exactly the new session |
| `SessionEffects.RevocationLogsOut` | src/modules/auth/auth.repository.ts:205-254 | a logout finds its session if and only if the secret is its own; then it and all its replacements end, and nothing else changes |
| `SessionEffects.RevocationEndsAccount` | src/modules/auth/auth.repository.ts:256-266 | revoking an account ends the access of its sessions and of no other |
| `SessionEffects.ClosingEndsAccess` | src/modules/auth/auth.repository.ts:95-133 | closing an account ends its access and its refreshes and no other's |
| `SessionEffects.LoginOpensAccess` | src/modules/auth/auth.repository.ts:80-113 | a login opens access for its own account only, if that is open, and can be refreshed with its secret until it expires |
| `SessionEffects.CleanupPrunes` | src/worker/retention-cleanup.ts:16-53 | a pass deletes at most five hundred sessions of which nothing expires within thirty-five days before, the earliest expired first, and all of them if fewer |
| `SessionRuns.RotationHandsOver` | src/modules/auth/auth.repository.ts:182-202 | after a rotation only the new session is active, its token rotates exactly until it expires, and the old token is a replay |
| `SessionRuns.ReplayKills` | src/modules/auth/auth.repository.ts:161-181 | after a replay the whole lineage is dead |
| `SessionRuns.LogoutKills` | src/modules/auth/auth.repository.ts:237-253 | after a logout the whole lineage is dead |
| `SessionRuns.DeadForever` | src/modules/auth/auth.repository.ts:95-203 | through any further run no session of a dead lineage is active or can be refreshed |
| `SessionRuns.RetentionIsInvisible` | src/worker/retention-cleanup.ts:28-53 | retention passes anywhere in a run change no refresh outcome; every session not past the cutoff keeps its row, its access and all ancestors that reach it |
| `SessionRuns.PrunedLineageStaysDead` | src/worker/retention-cleanup.ts:28-53 | pruning the links of a dead lineage never lets one of its sessions refresh again |
| `SessionRuns.AncestorsSurvive` | src/worker/retention-cleanup.ts:29-47 | whatever reaches a session that is not past the cutoff is kept |
| `SessionRepository.AuthRepository.CreateSession` | src/modules/auth/auth.repository.ts:80-93 | inserts exactly one session, unrevoked and without successor, and keeps the invariant |
| `SessionRepository.AuthRepository.Walk` | src/modules/auth/auth.repository.ts:163-172 | the loop along successors computes exactly the chain |
| `SessionRepository.AuthRepository.Rotate` | src/modules/auth/auth.repository.ts:115-203 | any outcome but invalid needs the session's own secret, an open account and time before the expiry, and is given with them; each outcome leaves what it says and nothing else |
| `SessionRepository.AuthRepository.RevokeOne` | src/modules/auth/auth.repository.ts:205-254 | with the session's own secret revokes exactly it and its replacements, otherwise nothing |
| `SessionRepository.AuthRepository.RevokeAccountSessions` | src/modules/auth/auth.repository.ts:256-266 | revokes exactly the unrevoked sessions of the account, now, and no other |
| `SessionRepository.AuthRepository.ActiveSessions` | src/worker/retention-cleanup.ts:29-38 | the climb along predecessors computes exactly the sessions from which one not past the cutoff is reached |
| `SessionRepository.AuthRepository.OldestFirst` | src/worker/retention-cleanup.ts:47-48 | takes the earliest expired, at most five hundred, all if fewer |
| `SessionRepository.AuthRepository.Cleanup` | src/worker/retention-cleanup.ts:16-53 | deletes the earliest expired of the sessions that are long over, five hundred or all; without the lock nothing changes |
| `OutboxTable.ClaimableFromAvailability` | src/worker/outbox.processor.ts:120-126 | an unpublished event is claimable at a time exactly if its availability has come |
| `OutboxTable.BackoffDoubles` | src/worker/outbox.processor.ts:59-60 | the back-off doubles with each failure until it reaches an hour at the twelfth and stays there |
| `OutboxTable.FreeAgainExactly` | src/worker/outbox.processor.ts:43-88 | what a claim locks can be claimed again from five minutes on, what failed from its back-off on, what was published never, and not earlier |
| `OutboxTable.ClaimLocksRows` | src/worker/outbox.processor.ts:131-141 | a claim locks exactly its rows for five minutes |
| `OutboxTable.PublishPublishesRow` | src/worker/outbox.processor.ts:43-57 | a success publishes and unlocks the row if the worker holds it, and else changes nothing |
| `OutboxTable.FailPutsOff` | src/worker/outbox.processor.ts:58-81 | a failure counts, unlocks and puts off the row if the worker holds it, and else changes nothing |
| `OutboxWorkers.RunInv` | src/worker/outbox.processor.ts:38-144 | every run of any number of workers keeps the fencing, counting and publishing invariant |
| `OutboxWorkers.CountsAndReports` | src/worker/outbox.processor.ts:58-88 | in every run, workers stopping or failing at any point, the attempt count of a row is the number of persisted failures, a row is reported at most once and only after ten, and what is published had a handler that finished |
| `OutboxWorkers.TenthFailureIsToBeReported` | src/worker/outbox.processor.ts:64-82 | persisting a failure leaves its worker with a report to make if and only if it is the tenth of the row |
| `OutboxWorkers.TenthFailureIsReportedExactly` | src/worker/outbox.processor.ts:82-88 | through any further run that report has been made if and only if the first thing the worker did next was to make it |
| `OutboxWorkers.OwnedRowsKeepCount` | src/worker/outbox.processor.ts:110-144 | a row a worker still owns has the attempt count the worker read at claim time |
| `OutboxWorkers.OnlyLatestClaimSettles` | src/worker/outbox.processor.ts:43-81 | a worker whose claim was taken over changes no row, counts no failure and reports nothing |
| `OutboxLeases.HandlersAreApart` | src/worker/outbox.processor.ts:110-144 | in every run on one clock, two workers handle the same event at once only if five minutes lie between their claims |
| `OutboxLeases.OverlapExactly` | src/worker/outbox.processor.ts:110-144 | and for any two claim times there is such a run if and only if they are at least five minutes apart |
| `OutboxProcessor.DelayWakesInTime` | src/worker/outbox.processor.ts:94-108 | sleeping the answered delay oversleeps no event by more than the rounding to a millisecond, and a shorter delay than the maximum wakes for some event |
| `OutboxProcessor.Processor.SelectClaimable` | src/worker/outbox.processor.ts:112-129 | selects the first rows in order that are unpublished, due and under no lease, twenty or all, skipping only those that others have locked |
| `OutboxProcessor.Processor.ClaimEvents` | src/worker/outbox.processor.ts:110-144 | locks exactly the selected rows, none that others have locked among them, for five minutes |
| `OutboxProcessor.Processor.PersistSuccess` | src/worker/outbox.processor.ts:43-57 | publishes the row only while this worker owns it |
| `OutboxProcessor.Processor.PersistFailure` | src/worker/outbox.processor.ts:58-88 | counts, reschedules and unlocks the row only while this worker owns it, and reports the tenth failure only then |
| `OutboxProcessor.Processor.NextWakeDelay` | src/worker/outbox.processor.ts:94-108 | answers the clamped, rounded-up time to the earliest availability, or the maximum without unpublished rows |
| `OutboxWakeup.NoLostWakeup` | src/worker/outbox-runner.ts:15-50 | whenever the worker sleeps, its connection is live and every unpublished event has an undelivered notification or becomes claimable no earlier than the deadline, up to the rounding and the time between query and sleep |
| `OutboxWakeup.DegradedPause` | src/worker/outbox-runner.ts:40-48 | without a listener a pause never exceeds five seconds |
| `OutboxWakeup.WakingEndsSleep` | src/worker/outbox-wakeup.ts:121-146 | a delivered notification or a dropped connection ends a sleep at once |
| `OutboxWakeup.WakeupsTakeEffect` | src/worker/outbox-wakeup.ts:36-68 | a wake-up goes to the waiter or is kept; only the current connection can be lost, which wakes; a wait ends at once when aborted or closed or on a kept wake-up, fails without a connection or with another waiter, and else waits |
| `OutboxWakeup.RoundSleepsAsTold` | src/worker/outbox-runner.ts:15-50 | after processing the worker starts over at once; else it sleeps for the delay it was told, or pauses for it, five seconds at most, when it cannot listen, and five seconds when something fails |
| `OutboxWakeup.RestsEndInTime` | src/worker/outbox-wakeup.ts:30-60 | a sleep or pause ends when its time is over, not before |
| `OutboxWakeup.KeptWakeupSkipsTheSleep` | src/worker/outbox-wakeup.ts:42-45 | a kept wake-up lets the worker start over instead of sleeping |
| `OutboxWakeup.FreeRowsAreNotified` | src/worker/outbox-wakeup.ts:121-146 | a notification goes out exactly for rows an insert or a failure leaves free while there is a connection; its delivery wakes the worker, and what is on the way is lost with the connection |
| `OutboxWakeup.Listener.Listen` | src/worker/outbox-wakeup.ts:24-34 | keeps a live connection, refuses when closed, and otherwise takes the one obtained |
| `OutboxWakeup.Listener.Wait` | src/worker/outbox-wakeup.ts:36-68 | a pending wake-up is consumed before the wait, else one waiter is registered or the call throws |
| `OutboxWakeup.Listener.OnNotification` | src/worker/outbox-wakeup.ts:135-146 | wakes the waiter or leaves one pending wake-up |
| `OutboxWakeup.Listener.OnEnd` | src/worker/outbox-wakeup.ts:121-127 | only the current connection is dropped, and dropping it wakes |
| `OutboxWakeup.Listener.ConsumePending` | src/worker/outbox-wakeup.ts:148-152 | a pending wake-up is consumed once |
| `OutboxWakeup.Listener.Close` | src/worker/outbox-wakeup.ts:70-87 | closing is final, drops the connection and ends the wait |
| `AssetProtocol.StepKeeps` | src/modules/assets/assets.repository.ts:121-145 | every step of every party keeps the whole invariant |
| `AssetProtocol.ObjectsStayCovered` | src/modules/assets/assets.repository.ts:121-145 | in every interleaving a raw object without a row has an unpublished purge still to pass it, and a normalized one such a purge, an unsettled ready result or a normalizer between put and send |
| `AssetProtocol.ReadyAssetsKeepTheirImage` | src/worker/asset-result.consumer.ts:73-97 | no purge and no orphan deletion ever takes the image of a ready asset that still has its row |
| `AssetProtocol.NeverOrphansExactly` | src/modules/assets/assets.service.ts:67-79 | once all parties are quiet no object is without a row, in every run, if and only if an accepted upload completes within the five minutes between URL expiry and purge floor |
| `AssetProtocol.LateUploadOrphans` | src/modules/assets/assets.repository.ts:141 | a concrete run strands a raw object when an upload may outlast the purge floor |
| `AssetHandling.HandledIsARun` | src/worker/asset-result.consumer.ts:73-104 | handling one message, acknowledged in the end or not, is a run of the protocol steps, in each of its three cases |
| `AssetHandling.BatchFrame` | src/worker/asset-result.consumer.ts:50-108 | a batch removes exactly its acknowledged messages from the queue, settles those whose acknowledgement fails and touches nothing but rows and normalized objects besides |
| `AssetHandling.BatchOutcome` | src/worker/asset-result.consumer.ts:73-98 | in a batch a row changes only from pending, and an object goes only if its row is gone; unless its message is given up it then does, acknowledged or not |
| `AssetHandling.BatchKeeps` | src/worker/asset-result.consumer.ts:49-109 | a batch keeps the protocol invariant, whichever messages fail before anything changed or at their acknowledgement |
| `AssetHandling.NormalizerIsARun` | src/image-processor.ts:48-80 | normalizing is a run of the protocol steps that puts before it sends, or a rejection |
| `AssetResults.BatchDecides` | src/worker/asset-result.consumer.ts:73-98 | of a batch the first message about a pending row that is handled makes it ready or rejected as it says, all other rows stay, and an object goes if and only if its row is gone and a ready result for it is handled |
| `AssetResults.ToldBecauseSent` | src/image-processor.ts:48-80 | in every interleaving a result reaches a queue, a handler or a row only after a normalizer sent it |
| `AssetResults.StatusWasSent` | src/worker/asset-result.consumer.ts:73-87 | in every run from the start a row is ready only after a ready result was sent for it, and rejected only after a rejected one |
| `AssetResults.RowsGetTheirStatus` | src/worker/asset-result.consumer.ts:73-87 | there are runs in which an upload becomes ready, with its image, and in which it is rejected |
| `AssetService.Assets.CreateUpload` | src/modules/assets/assets.service.ts:67-84 | signs first, for ten minutes, and inserts second; a URL is handed out only with its row |
| `AssetService.Assets.Delete` | src/modules/assets/assets.repository.ts:121-145 | deletes the row and leaves the purge due at the later of now and fifteen minutes after creation, or changes nothing |
| `AssetService.Assets.Consume` | src/worker/asset-result.consumer.ts:49-109 | the loop over a received batch makes each pending row what the first handled message about it says and leaves the others; a message that fails stays, even after its row or object was changed |
| `AssetService.Assets.ProcessRecord` | src/image-processor.ts:48-80 | stores the image before the ready result, and sends a rejection when anything before the send fails |
| `RateLimit.CleanupIsInvisible` | src/throttling/postgres-throttler.storage.ts:29-67 | cleanup passes anywhere in a run on any keys change no hits, block flag or time an increment reports |
| `RateLimit.EachHitIsReported` | src/throttling/postgres-throttler.storage.ts:18-81 | every hit is reported once, with the row it left |
| `RateLimit.ReportTellsTheWindow` | src/throttling/postgres-throttler.storage.ts:24-48 | the report tells the hits of the window and how long it lasts: until then each further hit adds one, from then on a new window starts with one |
| `RateLimit.ReportTellsTheBlock` | src/throttling/postgres-throttler.storage.ts:49-81 | it tells how long the key is blocked: a hit before that does not move the end of the block, a later one is blocked only by exceeding its own limit |
| `RateLimit.OverIsNothingExactly` | src/modules/ai/ai-run-maintenance.repository.ts:68-81 | a row counts for nothing if and only if its window and its block are over, which is what the cleanup selects |
| `RateLimit.AdmittedExactly` | src/throttling/postgres-throttler.storage.ts:49-59 | a hit passes if and only if no block holds and the window has room |
| `RateLimit.OneWindowAdmitsTheLimit` | src/throttling/postgres-throttler.storage.ts:40-48 | from any moment without an open window, one window length admits at most the limit, cleanups included |
| `RateLimit.AnySpanAdmitsLessThanTwiceTheLimit` | src/throttling/postgres-throttler.storage.ts:29-81 | any half-open span of one window length admits at most twice the limit less one |
| `RateLimit.ExceedingHitBlocks` | src/throttling/postgres-throttler.storage.ts:49-59 | the hit that exceeds the limit blocks its key for exactly the policy's block: whatever hits and cleanups follow, nothing passes before |
| `RateLimit.SpanLimitIsReached` | src/throttling/postgres-throttler.storage.ts:40-48 | for every limit and every window of two milliseconds or more a run reaches that bound |
| `RateLimit.Limiter.Increment` | src/throttling/postgres-throttler.storage.ts:18-81 | the branch by branch upsert is the specified row and report, other keys untouched |
| `RateLimit.Limiter.Cleanup` | src/modules/ai/ai-run-maintenance.repository.ts:68-81 | deletes a batch of expired unlocked rows, longest expired first, all of them if they fit |
| `QueryLimits.CostByName` | src/graphql/query-limits.ts:66-100 | a field costs one and what is below it as often as it asks for entries: for the four lists with pages the deciding `first` held from 1 to 50, or 50, for any other field once |
| `QueryLimits.MultiplierAsks` | src/graphql/query-limits.ts:59-85 | the multiplier is the number of entries asked for, told by the four names and the argument alone |
| `QueryLimits.DepthIsTheLongestNesting` | src/graphql/query-limits.ts:22-57 | on every document the depth is the largest number of fields below one another on a way that enters no fragment twice |
| `QueryLimits.MeasuresMatchInlining` | src/graphql/query-limits.ts:22-100 | on documents whose fragments form no cycle, depth and complexity with the visited set equal those of the fully inlined query |
| `QueryLimits.DepthWithinComplexity` | src/graphql/query-limits.ts:22-100 | depth never exceeds complexity, on cyclic documents too |
| `QueryLimits.CountWithinComplexityExactly` | src/graphql/query-limits.ts:66-100 | the complexity bounds every response, paginated fields repeating what is below them at most `first` times, at any list below, if and only if no field is asked for below a list without pages that can have a second entry |
| `QueryLimits.LimitHoldsExactly` | src/graphql/query-limits.ts:66-100 | a limit bounds every response to a query if and only if it bounds the cost that multiplies by the length of the lists without pages as well |
| `QueryLimits.WideCostExactly` | src/graphql/query-limits.ts:66-100 | that cost is never below the complexity and equals it if and only if no field is asked for below a wide list |
| `QueryLimits.PartsOutgrowTheCost` | schema.graphql:62 | one message with two parts under `messages(first: 1) { parts { kind } }` resolves four fields at a complexity of three |
| `QueryLimits.FullMeetsComplexity` | src/graphql/query-limits.ts:66-100 | the response with every page and every list full conforms and resolves exactly the wide cost, so the bound is the maximum |
| `QueryLimits.FirstArgumentDecides` | src/graphql/query-limits.ts:59-64 | only the first argument of that name counts; an integer from 1 to 50 is taken, a smaller one is 1, anything else 50 |
| `QueryLimits.AcceptedOperationsStayWithinLimits` | src/graphql/query-limits.ts:102-130 | an operation the rule lets through is no deeper than its limit, and resolves no more fields than its limit, whatever the data, if no field is asked for below a list without pages that can have a second entry; if one is, some response exceeds the complexity the rule compared |
| `QueryLimits.FragmentsFrom` | src/graphql/query-limits.ts:10-20 | the loop builds the map in which the last definition of a name wins |
| `QueryLimits.LastFragmentWins` | src/graphql/query-limits.ts:14-18 | a name maps to its last definition |
| `QueryLimits.NestedDepth` | src/graphql/query-limits.ts:22-57 | the recursive loop computes the specified depth and terminates on every document |
| `QueryLimits.ComplexityOf` | src/graphql/query-limits.ts:66-100 | the recursive loop computes the specified complexity and terminates on every document |
| `QueryLimits.QueryLimitRule` | src/graphql/query-limits.ts:102-130 | reports no error if and only if every operation is within both limits, and every error reported is deserved |
| `ToolEffects.AssessTakesEffect` | src/modules/ai/shopping-deep-mode.ts:22-42 | the score weighs goal, constraints and success four to three to three; an assessment is refused if and only if it is about shopping, above 0.2 without a next question and questions are not skipped |
| `ToolEffects.GateTakesEffect` | src/modules/ai/openai-compatible-ai.adapter.ts:223-313 | searching and looking up are refused without an assessment, for other requests and while clarity is wanted, and only then; a question then must be about what is wanted; nothing else changes |
| `ToolEffects.FoundTakesEffect` | src/modules/ai/openai-compatible-ai.adapter.ts:283-288 | what a search found joins the products, each once and where it first came up |
| `ToolEffects.FailedSearchTakesEffect` | src/modules/ai/openai-compatible-ai.adapter.ts:253-289 | a search that fails leaves nothing but that it is over |
| `ToolEffects.RecordTakesEffect` | src/modules/ai/openai-compatible-ai.adapter.ts:314-348 | past the gate a list is recorded if and only if it has, in order, a summary of twenty characters or more with the word for a recommendation for each product, and then it is what is recorded |
| `ToolEffects.SchemasAllow` | src/modules/ai/ai-provider-protocol.ts:98-115 | one to ten recommendations of up to eighty characters, clarities from zero to one |
| `ToolEffects.QuestionEndsTheTurn` | src/modules/ai/ai-provider-protocol.ts:202-239 | a question ends the turn without text and recommendations |
| `ToolEffects.TextIsTrimmed` | src/modules/ai/ai-provider-protocol.ts:202-239 | the text is what was written without the blanks around it |
| `ToolGate.TextTurnResults` | src/modules/ai/openai-compatible-ai.adapter.ts:185-349 | whatever is called in whatever order, a text turn that ends without a question was assessed, had a search come back if it is about shopping, and lists every product found, once, in first-seen order, each with an accepted summary |
| `ToolGate.SearchedMeansFound` | src/modules/ai/openai-compatible-ai.adapter.ts:283-288 | a turn counts as searched if and only if some search came back |
| `ToolGate.CallKeeps` | src/modules/ai/openai-compatible-ai.adapter.ts:185-349 | every tool call, a search finishing late included, keeps the invariant of the shared state |
| `ToolGate.ActsOnlyOnClearRequests` | src/modules/ai/openai-compatible-ai.adapter.ts:253-348 | in a text turn nothing is searched, looked up or recorded unless the request is assessed as shopping and is clear enough or its question skipped |
| `ToolGate.AsksTheRequiredQuestion` | src/modules/ai/openai-compatible-ai.adapter.ts:223-252 | a question is accepted only about an assessed shopping request, and above the threshold only about the required dimension |
| `ToolGate.NothingDemandedExactly` | src/modules/ai/ai-provider-protocol.ts:174-239 | without a question nothing is demanded if and only if only finish reason or empty text can still block the result |
| `ToolGate.DemandCanBeMetExactly` | src/modules/ai/ai-provider-protocol.ts:174-200 | a demanded tool can be called with success if and only if it is not the recording of more than ten products or of products of a request assessed anew as something else |
| `ToolGate.ElevenProductsCannotBeRecorded` | src/modules/ai/ai-provider-protocol.ts:98-115 | for all products found, an eleventh makes the demanded recording impossible |
| `ToolGate.ReassessedProductsCannotBeRecorded` | src/modules/ai/openai-compatible-ai.adapter.ts:314-327 | so does assessing the request as not about shopping after a search |
| `ToolGate.EvaluateIsSensible` | src/modules/ai/shopping-deep-mode.ts:22-42 | an accepted assessment has a score from 0 to 1 and, above the threshold, a next question unless it was skipped |
| `ToolGate.FoundInOrder` | src/modules/ai/openai-compatible-ai.adapter.ts:283-285 | adding to the set keeps each id once at the place of its first appearance |
| `ToolHandlers.Tools.Assess` | src/modules/ai/openai-compatible-ai.adapter.ts:193-222 | refuses a vague assessment without a next question, otherwise replaces the assessment |
| `ToolHandlers.Tools.AskUser` | src/modules/ai/openai-compatible-ai.adapter.ts:223-252 | asks only after an assessment, only about shopping and only the required dimension |
| `ToolHandlers.Tools.BeginSearch` | src/modules/ai/openai-compatible-ai.adapter.ts:253-282 | a search starts only past the gate |
| `ToolHandlers.Tools.FinishSearch` | src/modules/ai/openai-compatible-ai.adapter.ts:283-288 | what is found is added in order whatever happened meanwhile |
| `ToolHandlers.Tools.GetProduct` | src/modules/ai/openai-compatible-ai.adapter.ts:290-313 | a lookup passes the same gate and changes nothing |
| `ToolHandlers.Tools.Record` | src/modules/ai/openai-compatible-ai.adapter.ts:314-348 | replaces the summaries only by a list that matches the products one to one |
| `AiRunEffects.BeginTakesEffect` | src/modules/ai/ai.repository.ts:61-204 | a run begins if and only if its id is new, the conversation is the account's, and the message is the same or new with an image, if any, that is ready there; then a run with a minute's lease and, once, the message with its parts come in |
| `AiRunEffects.StoresTurnExactly` | src/modules/ai/ai.repository.ts:182-202 | a turn is stored as its text, if any, and then its image, if any |
| `AiRunEffects.CompletionTakesEffect` | src/modules/ai/ai.repository.ts:206-257 | a completion succeeds if and only if the run is reserved, the message id free and the answer not empty; then row and message change and nothing else |
| `AiRunEffects.StoresAnswerExactly` | src/modules/ai/ai.repository.ts:222-256 | an answer is stored as its text, if any, its question, if any, and then its products in their order |
| `AiRunEffects.PartsTellTheAnswer` | src/modules/ai/ai.repository.ts:222-256 | the stored parts tell text, question and products |
| `AiRunEffects.FailureTakesEffect` | src/modules/ai/ai.repository.ts:394-407 | a failure ends a reserved run, now, and changes nothing else |
| `AiRunEffects.CancellationTakesEffect` | src/modules/ai/ai.repository.ts:439-475 | only account and conversation of a run cancel it, only while it is reserved, and each refusal tells its status |
| `AiRunEffects.RenewalTakesEffect` | src/modules/ai/ai.repository.ts:477-490 | a reserved run gets a minute from now, another nothing |
| `AiRunEffects.RecoveryTakesEffect` | src/modules/ai/ai-run-maintenance.repository.ts:14-48 | exactly the unlocked reserved runs whose lease is over or whose heartbeat is two minutes old fail, now |
| `AiRunEffects.RemovalsTakeEffect` | src/modules/archive/archive.writer.ts:126-131 | an archived message goes with its parts |
| `AiRuns.ReservedIsLeftOnce` | src/modules/ai/ai.repository.ts:439-490 | in every interleaving of begin, renew, complete, fail, cancel and recovery a run leaves `reserved` once if it ends and never again |
| `AiRuns.OneAnswerIfCompleted` | src/modules/ai/ai.repository.ts:206-257 | a completed run got exactly one assistant message, any other run none, archived ones counted |
| `AiRuns.OverForEver` | src/modules/ai/ai.repository.ts:394-407 | the row of a run that is over never changes |
| `AiRuns.EveryEndHasItsCause` | src/modules/ai/ai.repository.ts:439-490 | a run that is over was ended by its completion, a failure, a recovery or its owner's cancellation, and the row's status and times say which and when |
| `AiRuns.OneTurnPerLiveMessage` | src/modules/ai/ai.repository.ts:61-204 | while a user message is live every run that begins with its id has the same account, conversation, text and image, and inserts neither message nor parts again |
| `AiRuns.MatchesExactlyTheInsertion` | src/modules/ai/ai.repository.ts:105-142 | the comparison with the stored parts accepts exactly the parts the insertion stores |
| `AiRuns.PartsTellTheTurn` | src/modules/ai/ai.repository.ts:182-202 | the stored parts determine text and image |
| `AiRuns.RecoveryFollowsTheLease` | src/modules/ai/ai-run-maintenance.repository.ts:14-48 | in every reachable state a recovery fails exactly the unlocked reserved runs whose one-minute lease is over; the heartbeat limit adds none |
| `AiRunRepository.AiRepository.BeginRun` | src/modules/ai/ai.repository.ts:61-204 | statement by statement with its rollbacks it is the specified begin: a refused one leaves every table as it was |
| `AiRunRepository.AiRepository.CompleteRun` | src/modules/ai/ai.repository.ts:206-257 | row and answer stand together or not at all, and the answer is stored as its text, question and products in order |
| `AiRunRepository.AiRepository.FailRun` | src/modules/ai/ai.repository.ts:394-399 | fails a reserved run and leaves its stream open |
| `AiRunRepository.AiRepository.FailRunAndClose` | src/modules/ai/ai.repository.ts:401-407 | fails a reserved run and closes its stream |
| `AiRunRepository.AiRepository.CancelRun` | src/modules/ai/ai.repository.ts:439-475 | cancels an owned reserved run and otherwise tells why not |
| `AiRunRepository.AiRepository.RenewRunLease` | src/modules/ai/ai.repository.ts:477-490 | sets the heartbeat of a reserved run to now and its deadline to a minute later, and reports whether it did |
| `AiRunRepository.AiRepository.RecoverStaleReservedRuns` | src/modules/ai/ai-run-maintenance.repository.ts:14-48 | the loop fails exactly the stale unlocked runs and counts them |
| `AiStreams.FinishedMeansCompleted` | src/modules/ai/ai-stream-lifecycle.ts:39-65 | in every interleaving RUN_FINISHED is sent only if the row is completed, and with no completion in flight success and a completed row are the same unless the acknowledgement of the commit was lost, when the row is completed and the stream is not |
| `AiStreams.CallbacksTakeEffect` | src/modules/ai/ai-stream-lifecycle.ts:39-65 | the completion decides when it returns, failing and cancelling decide what is open, each error asks once for the run to be marked, and the client is told once what the outcome is |
| `AiStreams.FailuresLand` | src/modules/ai/ai.repository.ts:394-399 | a failure that lands fails a reserved run and leaves its stream open, a lost one changes nothing |
| `AiStreams.FailedRunsCompleteExactly` | src/modules/ai/ai-stream-lifecycle.ts:45-60 | a stream that has failed can still end with a completed row if and only if it already is or a completion that can succeed is waiting |
| `AiStreams.ErredRunCompletes` | src/modules/ai/ai-stream-lifecycle.ts:45-60 | a run from the start does so: a client is told of an error while the completion is in flight, which then commits |
| `AiStreams.HonestOn` | src/modules/ai/ai.service.ts:79-113 | each callback, transaction and resumption keeps outcome and row consistent |
| `PublicStream.PublishedIsClean` | src/modules/ai/ai-stream-lifecycle.ts:191-199 | what a client sees has one run start at most, no provider terminal chunk, and only the assistant message id |
| `PublicStream.TextIsKept` | src/modules/ai/ai-stream-lifecycle.ts:226-315 | no text of the provider is lost, doubled or reordered |
| `PublicStream.EachTextInOrder` | src/modules/ai/ai-stream-lifecycle.ts:226-315 | the texts are those of the text chunks, one for each, in order |
| `PublicStream.TerminalTells` | src/modules/ai/ai-stream-lifecycle.ts:238-245 | the terminal chunk says finished for success, error for failure and nothing otherwise |
| `PublicStream.Stream.Next` | src/modules/ai/ai-stream-lifecycle.ts:248-299 | hands on the next visible chunk, or at the end of the source the outcome, once and last |
| `PublicStream.Stream.NextTerminal` | src/modules/ai/ai-stream-lifecycle.ts:238-245 | the terminal chunk is told once, and then nothing |
| `PublicStream.Stream.Resume` | src/modules/ai/ai-stream-lifecycle.ts:45-55 | when the completion returns, what its transaction did decides the outcome, whatever was decided meanwhile, as in the model of the stream's outcome |
| `PublicStream.Stream.Fail` | src/modules/ai/ai-stream-lifecycle.ts:56-60 | failing decides only an open outcome, as there |
| `PublicStream.Stream.Cancel` | src/modules/ai/ai-stream-lifecycle.ts:61-63 | cancelling decides only an open outcome, as there |
| `PublicStream.Stream.Return` | src/modules/ai/ai-stream-lifecycle.ts:300-312 | hanging up ends the stream and fails a run without outcome |
| `ConversationPages.ListingIsSound` | src/modules/conversations/conversation.repository.ts:24-55 | whatever is created, renamed or deleted between pages, a listing is strictly newest first and, when complete, holds every conversation that was there throughout |
| `ConversationPages.ListingIsExact` | src/modules/conversations/conversation.service.ts:21-51 | when only newer conversations appear, the pages are exactly the conversations of the first page's moment and end after as many pages as they fill |
| `ConversationPages.QueryListsOwn` | src/modules/conversations/conversation.repository.ts:24-55 | the query lists exactly the account's conversations that are not deleted and lie below the cursor |
| `ConversationPages.NewestComesFirst` | src/modules/conversations/conversation.repository.ts:50-54 | the later creation time comes first, and of two with one time the larger id |
| `ConversationPages.PageIsFilled` | src/modules/conversations/conversation.service.ts:21-51 | a page holds as many as asked for, from one to fifty, or all that are left, and says whether more are left |
| `ConversationPages.QueryLists` | src/modules/conversations/conversation.repository.ts:24-55 | the query lists exactly the eligible rows in strictly descending order |
| `ConversationPages.PageDescends` | src/modules/conversations/conversation.service.ts:26-50 | a page is a descending run below its cursor, and its end cursor is its last row |
| `ConversationPages.TailRemains` | src/modules/conversations/conversation.repository.ts:29-37 | asking after a row lists exactly what the longer listing has after it |
| `ConversationPages.FollowLists` | src/modules/conversations/conversation.repository.ts:24-55 | only what was listable when its page was read is listed |
| `StreamLog.Reader.Next` | src/modules/ai/postgres-stream-durability.ts:77-118 | at every moment, across pages and appends, what was yielded is a prefix of the snapshot after the start offset; at the end it is all the last query could see |
| `StreamLog.ResumeComposes` | src/modules/ai/postgres-stream-durability.ts:84-99 | the entries after an entry are the rest of the entries |
| `StreamLog.StopAndResume` | src/modules/ai/postgres-stream-durability.ts:77-84 | stopping after an id and resuming from it later yields what one read would have |
| `StreamLog.OffsetsAccepted` | src/modules/ai/postgres-stream-durability.ts:26-54 | an offset is one to nineteen digits of a number below 2^63, and inside the server -1 means the start |
| `StreamLog.OffsetsComeBack` | src/modules/ai/postgres-stream-durability.ts:26-54 | every offset handed out is accepted and means the same event |
| `StreamLog.LaterLogHasMore` | src/modules/ai/postgres-stream-durability.ts:131-143 | a later snapshot extends an earlier one |
| `StreamLog.Log.Append` | src/modules/ai/postgres-stream-durability.ts:63-75 | appends the chunks in order under increasing ids |
| `StreamLog.Log.Snapshot` | src/modules/ai/postgres-stream-durability.ts:131-143 | returns all entries of a run in order |
| `Base64Url.SymbolsAreTheAlphabet` | src/common/cursor.ts:22-23 | the symbols are the URL alphabet of the standard in its order |
| `Base64Url.SextetsReadAsTheBytes` | src/common/cursor.ts:22-23 | three bytes and their four sextets are one number |
| `Base64Url.GroupsAreEncoded` | src/common/cursor.ts:22-23 | bytes in threes take four symbols, and what is left is filled with zero bits and cut |
| `Base64Url.DecodeInvertsEncode` | src/common/cursor.ts:22-23 | decoding inverts encoding on all byte sequences, and the length is the expected one |
| `Base64Url.EncodeInvertsDecodeExactly` | src/common/cursor.ts:22-23 | re-encoding gives the text back if and only if it has no lone symbol and no stray bits |
| `Utf8.ExamplesOfTheStandard` | src/common/cursor.ts:25 | characters of each length are encoded as the standard's examples show |
| `Utf8.BytesCarryTheNumber` | src/common/cursor.ts:25 | the lead byte tells the length and all bytes together carry the character's number |
| `Utf8.DecodeInvertsEncode` | src/common/cursor.ts:25 | strict decoding inverts encoding on every text |
| `Utf8.EncodeInvertsDecode` | src/common/cursor.ts:25 | what strict decoding accepts is the encoding of its result |
| `Cursors.TextComesBackExactly` | src/common/cursor.ts:20-32 | a text comes back from its cursor if and only if it does not start with a byte order mark |
| `Cursors.PagesStartAtOne` | src/common/cursor.ts:49-53 | without a cursor the first page is meant, and what is accepted is a page from 1 to 2^53 - 1 |
| `Decimals.NextDigit` | src/common/cursor.ts:46-47 | a number is written with its digits in decimal order |
| `Cursors.PageComesBackExactly` | src/common/cursor.ts:46-53 | a page comes back from its cursor if and only if it is from 1 to 2^53 - 1; other numbers are refused |
| `Cursors.AcceptedCursorIsCanonicalExactly` | src/common/cursor.ts:49-53 | an accepted page cursor re-encodes to itself if and only if its bytes do not start with a byte order mark |
| `Cursors.MarkedCursorIsAccepted` | src/common/cursor.ts:20-29 | every page has a second accepted cursor, with the mark in front |
| `Tokens.UuidsFitALayout` | src/modules/auth/token-hash.ts:25-46 | the session ids accepted are those of the standard layout, versions 1 to 8, and the ids of zeros and of effs |
| `Tokens.ParsingInvertsFormatting` | src/modules/auth/token-hash.ts:25-46 | parsing yields exactly the parts whose formatting is the token, and only well-formed ones |
| `Tokens.SecretsAreThirtyTwoBytesExactly` | src/modules/auth/token-hash.ts:5-8 | the accepted secrets are exactly the encodings of 32 bytes |

## Left out

- Storage, queues, HTTP, wiring, hashing, compression, image decoding and JSON: objects are maps or sets, checksums and JSON are taken as injective, and an access to an object is one step.
- The pairs of statements inside one transaction: the row locks and advisory locks that make a transaction one step are taken as given.
- MessageArchive.HistoryInv: takes creation times to be distinct within a conversation, as the loader merges by time alone.
- MessageService.ForConversations: the call without limits is not modelled; the loader always gives limits.
- MessageService.LoadMany: the parts rows are those of the rows still live, as both go in one transaction; where an id is used for two messages, the loader's regrouping of messages by id and its merging of their parts are not modelled.
- The loader's mapping of parts and assets to GraphQL objects.
- Sessions: whether an access token has itself expired is checked outside the session table.
- OutboxWorkers: the handlers' own effects except the purge of an asset; the seven-day cleanup of published rows appears only as their removal.
- OutboxWakeup.NoLostWakeup: the deadline counts from the start of the sleep, as the code has it, so the time between the query and the sleep is part of the bound.
- OutboxWakeup.Listener.Listen: does not model joining a connection attempt that is already under way.
- OutboxWakeup.Listener.Close: does not model the wait for a connection attempt under way.
- OutboxWakeup: the worker's loop is a state machine, so that other parties can step in between, not a method; which failures the loop reports, closing the listener and aborting in the middle of a run of the loop.
- AssetProtocol: a send that fails after the image was put, and the purge of whole conversations and accounts.
- AssetService.Assets.Consume: a body that does not parse and a key that is not the owner's are among the messages given up; the width, height and key a row receives are not modelled.
- RateLimit: one clock reading per statement where the database reads the clock anew, and policies whose window or block has no length.
- RateLimit.Limiter.Cleanup: the deletion of expired stream events in the same transaction.
- QueryLimits: the merging of fields that ask for the same response key, which resolves fewer; a field's alias plays no part in the cost.
- ToolGate: scores are real numbers instead of floating point, lengths count characters instead of UTF-16 units, and the texts of questions and replies are not modelled.
- AiRunRepository.AiRepository.CompleteRun: how the payloads of question and products are put together from the answer.
- AiRuns: the removal of whole conversations and accounts, which takes their runs along, and the title update, the history and the pending providers of a turn.
- Lost acknowledgements: a statement that throws is taken not to have committed, except where an outbox event is published, an asset result is handled and an AI run is completed.
- AiStreams: the timers that poll for cancellation, renew the lease and time out; each of their effects is a step.
- PublicStream: a source that fails while it is being closed.
- ConversationPages: the edges' cursors as text, which `Cursors` covers; saved products, whose pages drop edges.
- StreamLog.Reader.Next: takes ids to become visible in increasing order, which the sequence does not promise for transactions that overlap; leaves out the hour after which entries expire and an abort by the reader; what is appended after the last query is not claimed to be read.
- Cursors: the JSON inside a conversation cursor; `Cursors.TextComesBackExactly` covers every text it can be.
- Provider adapters, URL allow-lists, profiles, favourites, environment validation and migrations other than the outbox trigger.
