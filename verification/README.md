# LinkIM: the reliability protocol, modelled and proved

LinkIM accepts a chat message, gives it an id and a sequence number, writes it to the Kafka topics
`msg.store` and `msg.push`, stores it in sharded MySQL tables, keeps one cursor row per user and
conversation, and lets clients catch up by paging. This project models that chain and proves what it
promises, over every run.

How the parts fit:

- **Send.** `Send` is a state machine whose steps are the single Redis and Kafka commands of any number of
  concurrent requests; every command may succeed, fail without effect, or take effect and lose its reply,
  and every process may die between two commands. `SendAcks` holds the results about acknowledgements,
  `SendCodes` about the error codes. `SendServer` is `sendMsg` itself as methods over the idempotency map, the
  counters and the two logs, while other calls change them between any two of its commands; `SendReplies`
  spells out what one undisturbed call answers and leaves, branch by branch. `SendLimits` shows what the
  protocol does not promise.
- **Store.** `Sql` is the effect of each statement on tables and rows, `Trace` projects any interleaving of
  statements onto one table or one row. `Store` describes one flush as a function of its batch and of
  everything the environment decides; `StoreWorkers` is the worker in place (builders, retry loop, dead
  letters, commits, `BatchLoop` with its reused buffer). On top: `StoreFacts`, `Confluence`, `Cursors`,
  `Batching`, `BatchRuns`, `Retries`, and `Joins` for the rows that group events create meanwhile.
- **Pipeline.** `Pipeline` is the store job as a machine (fetch, channel, batch, flush, commit, cancel, crash in
  the middle of a flush), `FetchLoop` its fetch loop in place, and `LoopMoves` shows that a run of
  `BatchLoop` is a run of that machine. `EndToEnd` runs it together with the send machine over one log.
  `IdSource` ties the ids to the generators of `Snowflake`, one per process. `Statements` says which
  statements a run can contain. `StoreLimits` shows what the whole chain does not promise.
- **Sync.** `Sync` is the service side of paging, `CatchUp` the client's loop, `Closing` the theorem that
  composes them with the store, `Session` a whole client that comes online and acknowledges, `PairPull`
  why a pull of a pair reports the caller's own last_seq, `GroupPull` why one of a group reports none.
- **Supporting cores.** `Decimal`, `Conv` and `Keys` (conversation ids and Redis keys), `Frames` and
  `FrameStream` (frame codec over a chunked stream), `Snowflake`, `Dedup`, `ConnTable`, `Members` and
  `MembersService` (member cache).

Kafka topics are sequences, Redis keys are maps and sets, MySQL tables are maps keyed by their unique keys. A
clock, a member list, the order in which a map is iterated, the amount a read returns and the outcome of a
command are parameters, so a theorem over all of them covers every environment. The shard function is an
arbitrary function of the conversation id into 0..63.

Limits that the code decides, each proved rather than only assumed: acknowledgements agree only while the
idempotency key lives (`SendLimits.ExpiryBreaksAgreement`); a rollback after the store write leaves its record
(`SendLimits.RollbackLeavesRecord`); a repeated id loses an acked message and leaves a cursor on nothing
(`StoreLimits.RepeatedIdLosesAcked`), and within one process an id repeats exactly when the clock stands
behind (`Snowflake.StepOrder`), after a restart exactly when it reads a millisecond used before
(`Snowflake.RestartRepeatsExactly`); a failed dead-letter send followed by a commit loses the record
(`EndToEnd.DlqFailureLoses`); a bad id or conversation spoils the statement it is batched into
(`Batching.BadIdLosesShardGroup`, `Batching.BadPairLosesUpserts`); a flush counts a message once per attempt whose
upsert took effect (`Retries.PairsCountedPerHit`, `Retries.GroupCountedPerHit`); unread over-reports exactly when a message is applied twice or
below the read cursor (`Trace.OverReportExactly`), and MarkRead under-reports exactly when it passes over seqs that
were not inbound (`Trace.ReadStaysExact`); a message stored behind a cursor is not offered again
(`CatchUp.LateMessageExactly`, `StoreLimits.LateMessageNeverPending`); a stale snapshot in flight can poison the
member cache (`Members.StalePoisons`); `Decode` ignores a multiple of 2^32 bytes (`Frames.LongInputAccepted`); an
empty id stays in the dedup set for ever (`Dedup.EmptyIdSticks`); a pull of a group reports `max_seq` 0
(`GroupPull.GroupMaxSeqIsZero`).

Where the code and its comments disagree, the model follows the code: `ParseP2PConv` rejects `min == max` too
(its comment says `min > max`, internal/service/conv.go:22-40), a pulled message always has `conv_type` 1
(internal/logic/sync.go:187), and `Handle` counts an event as consumed although its DEL failed
(internal/job/group.go:47-49).

## Model

| member | source | states |
|---|---|---|
| Conv.CheckP2PExact | internal/logic/sendmsg.go:105-121 | the one-to-one id check passes exactly for the printer's id of the sender and another user, over all of int64 |
| Conv.CheckGroupExact | internal/logic/sendmsg.go:123-132 | the group id check passes exactly for the printer's id of a positive group id |
| Conv.P2PRoundTrip | internal/service/conv.go:15-41 | both directions of a pair print the same id, and parsing gives the pair back in ascending order; equal uids do not parse |
| Conv.GroupRoundTrip | internal/service/conv.go:55-70 | parsing a printed group id gives the id back exactly when it is positive |
| Conv.P2PIdInjective | internal/service/conv.go:15-20 | different unordered pairs have different ids |
| Conv.GroupIdInjective | internal/service/conv.go:55-57 | different groups have different ids |
| Conv.KindsDisjoint | internal/service/conv.go:24-70 | no string parses both as a one-to-one and as a group conversation |
| Conv.LooseIntegers | internal/service/conv.go:29-36 | the integer parser alone also admits a plus sign and leading zeros, which the printer never writes |
| Keys.IdemKeyInjective | pkg/redisx/keys.go:28-30 | sender and client message id can be recovered from the idempotency key, colons included |
| Keys.DeviceKeyInjective | internal/comet/conn.go:67-69 | uid and device id can be recovered from the connection key, colons included |
| Keys.DeviceOfField | internal/job/push.go:177-184 | the device is what follows the first colon, or the whole field if there is none |
| Keys.RouteFieldRoundTrip | internal/comet/bucket.go:75-77 | the device put into a route field is recovered from it |
| Send.ValidateExactly | internal/logic/sendmsg.go:89-136 | an input passes exactly if sender and message type are positive, the client id is not empty, the payload has 1 to 65536 bytes, and the id is the printed one of the sender with another user under type 1 or of a positive group under type 2 |
| Send.OthersExactly | internal/logic/sendmsg.go:174-182 | the fan-out list holds every member but the sender, as often and in the order listed |
| Send.SeqRun | internal/logic/sendmsg.go:87-259 | invariant of every run: each drawn (conversation, seq) belongs to one request, the logs hold only drawn messages, and each request's records are as far as its program point says |
| SendAcks.Exclusive | internal/logic/sendmsg.go:138-154 | if the key does not expire while it is there, at most one request is between a won SETNX and its exit for one sender and client id |
| SendAcks.AckAgreement | internal/logic/sendmsg.go:139-281 | if the key does not expire while it is there, all code-0 acks for one sender and client id carry the same message id and seq, over all interleavings, crashes, lost replies, failed finalise and failed rollback |
| SendAcks.AckedIsPublished | internal/logic/sendmsg.go:225-281 | every code-0 ack names a message drawn by a request with the same sender and client id (the acked one itself unless it is a replay), with that request's conversation, type and payload, that is in msg.store once and in msg.push once per receiver: for the id of a pair the other user, for a group id the multiset of the members read with the sender's occurrences removed, in the order they were read |
| SendAcks.SlotDeterminesMessage | internal/logic/sendmsg.go:190-246 | any two records of either topic with the same conversation and seq carry the same message |
| SendAcks.SeqExclusive | internal/logic/redisdep.go:59-65 | each (conversation, seq) is issued to at most one request |
| SendCodes.RefusedWroteNothing | internal/logic/sendmsg.go:138-246 | a request answered with any code but 0 and 50201 drew no message, so no record of either topic is its own; 50201 is answered only after a seq was drawn |
| SendServer.SplitMembers | internal/logic/sendmsg.go:175-182 | the loop over the members says whether the sender is one of them and returns the others: the member list with the sender's multiplicity set to 0, taken at ascending positions |
| SendServer.LogicServer.ReplayOrBusy | internal/logic/sendmsg.go:263-281 | reading the key and answering is the machine's step, whatever others did before it, and returns its ack |
| SendServer.LogicServer.Relate | internal/logic/sendmsg.go:156-187 | the relation check is the machine's step: receivers for a friend or member, a refusal with its code otherwise |
| SendServer.LogicServer.Rollback | internal/logic/sendmsg.go:149-154 | the DEL of a failure path is the machine's step and the reply carries its code |
| SendServer.LogicServer.Draw | internal/logic/sendmsg.go:189-214 | INCR and the new message are the machine's step |
| SendServer.LogicServer.Publish | internal/logic/sendmsg.go:225-246 | the writes to msg.store and, per receiver, to msg.push are the machine's steps with the outcomes of the environment, up to the first error |
| SendServer.LogicServer.SendMsg | internal/logic/sendmsg.go:89-259 | while other calls and expiring keys change the stores between any two of its commands, one call leaves exactly what the machine leaves after the call's own commands with the outcomes of its environment, up to its reply or its panic for want of a receiver; bad parameters change nothing |
| SendServer.AfterIsRun | internal/logic/sendmsg.go:89-259 | what a call leaves is a run of the machine, so everything proved over runs holds with calls in them |
| SendReplies.CallAlone | internal/logic/sendmsg.go:87-281 | one call while nobody else moves, branch by branch and for every way its commands can end: the code and ack it answers, the idempotency key, the counter, the record and the envelopes it leaves, with a failed push keeping what was pushed before it; inputs that do not validate are answered 40201 and change nothing |
| SendReplies.Finishes | internal/logic/sendmsg.go:138-259 | the machine alone comes to that end from every state, and the receivers of an admitted request are those due: the other user of the pair, or the members read without the sender |
| SendLimits.UndisturbedAcks | internal/logic/sendmsg.go:138-258 | in every state, the successful steps of a valid request whose key is free end with its ack under the next seq of its conversation, its record and its envelope |
| SendLimits.ExpiryBreaksAgreement | internal/logic/sendmsg.go:30 | in every reachable state with an acked request, the expiry of its key and an undisturbed resend of the same input, one-to-one or group, end with another code-0 ack that differs |
| SendLimits.RollbackLeavesRecord | internal/logic/sendmsg.go:241-244 | in every state, a valid request with a free key whose push fails and that is resent has two more records in msg.store under two seqs, and only the second is acked |
| Trace.RowProjection | internal/job/store.go:345-379 | a conversation row depends only on the operations on its own key, in order |
| Trace.TableProjection | internal/job/store.go:211-238 | a message table depends only on the rows offered to it |
| Trace.InsertHolds | migrations/000004_messages.up.sql:12-13 | without collisions INSERT IGNORE on two unique keys builds exactly the set of rows offered |
| Trace.KeptExactly | migrations/000004_messages.up.sql:12-13 | whatever the rows, an offered row is in its table exactly if at one of its offers neither of its unique keys was taken by a row stored before |
| Trace.NextKeptExactly | migrations/000004_messages.up.sql:12-13 | after rows that do not collide, the next one is stored exactly if no different earlier row shares its id or its slot |
| Trace.DroppedRowBlocksNothing | migrations/000004_messages.up.sql:12-13 | in general an earlier colliding row is no obstacle if it was itself dropped |
| Trace.InsertKeeps | internal/job/store.go:211-238 | a stored row is never changed or lost by later inserts, whatever they are |
| Trace.LastSeqIsMax | internal/job/store.go:377 | last_seq is the greatest seq offered to the row, and the row exists once anything was offered |
| Trace.JoinCommutes | internal/job/group.go:51-57 | creating the join row before or after an upsert of the group gives the same row |
| Store.GroupRowOf | internal/job/store.go:306-341 | the i-th row a group message writes is that of its i-th member, has the group as target, and counts one unread message for everyone but the sender |
| Joins.JoinPassesFlush | internal/job/group.go:52-62 | at whatever point of a flush, whatever fails and is retried, the join row of a member of a group is created, the database is the same in all columns of all rows |
| Trace.RowHistory | internal/job/store.go:345-379 | from the operations on a row: conversation type and target are those of the one that created it, the read cursor is 0 or the greatest acknowledged since, and the update time is that of the last change |
| Trace.CursorsRise | internal/logic/sync.go:239-252 | neither last_seq nor read_seq ever falls under any operations |
| Trace.UnreadNeverOverReports | internal/logic/sync.go:239-252 | if each message is applied once while above the read cursor, then 0 <= unread <= the number of inbound messages above read_seq, under any interleaving of upserts, join rows and MarkRead |
| Trace.OverReportExactly | internal/job/store.go:345-379 | where the counter is tight, one more inbound upsert keeps the bound exactly when its seq is new and above the cursor |
| Trace.ReadStaysExact | internal/logic/sync.go:239-252 | MarkRead keeps an exact counter exact if and only if every seq passed over is an inbound message or none is left above; otherwise it under-reports |
| Store.RowsForDecimal | internal/job/store.go:211-238 | an insert can be built exactly when all ids are decimal, and then has one row per message in order |
| Store.P2PUpsMembers | internal/job/store.go:345-379 | an upsert can be built exactly when every message names a pair that contains its sender, and then has both rows of each message and no others |
| Store.PairRows | internal/job/store.go:345-379 | the receiver's row points at the sender and counts one, the sender's row points at the receiver and counts nothing, whichever uid is lower |
| Store.PairBuilds | internal/job/store.go:345-379 | a message builds its rows exactly if its sender is one of the two users of the id, and none builds without such an id |
| Store.ChunksFlatten | internal/job/store.go:306-332 | cutting a group's rows into statements loses nothing and keeps the order |
| Store.ChunkSizes | internal/job/store.go:306-332 | every statement has between 1 and 100 rows |
| StoreFacts.RetryOwn | internal/job/store.go:154-195 | a flush writes nothing foreign, and once it returns nil every message's insert took effect, whatever failed before |
| StoreFacts.AttemptStops | internal/job/store.go:172-195 | an attempt ends at the first insert that returns an error; otherwise it fails exactly if the upsert of the one-to-one rows does, its last statement, issued exactly if there are such messages and all of them build; group rows never show in its result |
| StoreFacts.GroupEnds | internal/job/store.go:274-292 | the rows of a group message are written exactly if its id is a group's, the members can be read and every statement returns nil, and up to the first error otherwise |
| StoreFacts.RetryFacts | internal/job/store.go:242-292 | with fixed members, a flush upserts only wanted rows, and all of them if its last attempt skipped nothing |
| StoreWorkers.GroupByShard | internal/job/store.go:198-208 | the groups are the messages of each touched shard in batch order |
| StoreWorkers.BuildMessageInsert | internal/job/store.go:211-238 | the built statement is the insert of the group's rows, or an error exactly when an id is not decimal |
| StoreWorkers.BuildConversationUpsert | internal/job/store.go:345-379 | the built rows are both rows of every message, or an error when one cannot be built |
| StoreWorkers.BuildGroupConversationUpserts | internal/job/store.go:306-332 | statements of 1 to batch rows, which together hold one row per member in order, with the group as target and one unread message for everyone but the sender |
| StoreWorkers.StoreWorker.InsertMessages | internal/job/store.go:180-195 | database, next command and error are those of the insert phase for the iteration order that was taken |
| StoreWorkers.StoreWorker.UpsertGroupConversations | internal/job/store.go:274-292 | the statements of one group message up to the first failure |
| StoreWorkers.StoreWorker.UpsertConversations | internal/job/store.go:242-271 | group messages one by one with errors swallowed, then one statement for the others |
| StoreWorkers.StoreWorker.WriteBatch | internal/job/store.go:172-177 | conversations are touched only after all inserts succeeded |
| StoreWorkers.StoreWorker.RetryExec | internal/job/store.go:154-169 | up to max attempts, ended by success or cancellation, with the traces of all attempts kept |
| StoreWorkers.StoreWorker.SendToDlq | internal/job/store.go:382-389 | appends exactly the records whose send took effect, in batch order and once each |
| StoreWorkers.DeadLettersInOrder | internal/job/store.go:382-389 | dead letters are the batch's records at ascending positions, exactly those whose send took effect |
| StoreWorkers.StoreWorker.CommitBatch | internal/job/store.go:143-151 | the commit covers all records of the batch if it took effect |
| StoreWorkers.StoreWorker.Flush | internal/job/store.go:123-140 | the batch is written or dead-lettered, and committed either way; an empty batch changes nothing |
| StoreWorkers.Append | internal/job/store.go:84 | append writes in place while there is room and keeps what was there |
| StoreWorkers.StoreWorker.BatchLoop | internal/job/store.go:72-111 | the batches flushed are those of the event sequence, although the buffer is reused in place, and the database, the dead letters, the commits and the outcomes used are those of flushing them one after another: a failed batch's messages are dead-lettered, every non-empty batch is committed |
| LoopMoves.LoopIsMoves | internal/job/store.go:72-111 | whatever the fetch loop and the senders do between its events, a run of the loop is a run of Receive and FlushPending moves of the job machine with theirs in between: same batches, same waiting items, same statements, dead letters and offsets |
| LoopMoves.LoopAsMachine | internal/job/store.go:72-151 | running the worker's BatchLoop leaves in its database, dead letters and counters exactly what that run of the machine leaves, and the machine's offsets are those of the worker's commits |
| StoreWorkers.FlushedExactlyOnce | internal/job/store.go:72-111 | everything received is handed to flush exactly once and in order, or still waits |
| StoreWorkers.BatchSizes | internal/job/store.go:84-111 | no batch is empty, and only the last batch of a shutdown drain can exceed 100 |
| StoreWorkers.LoopPace | internal/job/store.go:72-111 | the loop flushes on the hundredth waiting record and not before, on every tick that finds something waiting, and when the channel closes or the context ends |
| Confluence.TableContents | internal/job/store.go:180-195 | over any history of partial failures, retries and redelivery a table holds exactly the rows of the inserts that took effect |
| Confluence.TablesConfluent | internal/job/store.go:172-208 | two histories of the same messages, each message in at least one flush that returned nil, end with the same message tables, whatever the batches, order, shard iteration, attempts, dead-lettered flushes and redelivery, and even if memberships changed |
| Confluence.LastSeqConfluent | internal/job/store.go:242-379 | with fixed members, the same joins, and each message in at least one flush that skipped nothing, they also end with the same rows present and the same last_seq |
| Cursors.SupportedInterleaved | internal/job/store.go:172-177 | two workers whose upserts each come after the inserts stay so under every interleaving of their statements |
| Cursors.RetrySupported | internal/job/store.go:154-177 | in every flush each upsert comes after the insert of its message, through partial shard failures and retries |
| Cursors.CursorsAlwaysValid | internal/job/store.go:172-195 | after every single statement of a history each last_seq is 0 or the seq of a stored message of the conversation |
| Batching.WriteBatchExact | internal/job/store.go:172-177 | when every statement succeeds, a batch offers each table and each row exactly its messages in batch order |
| Batching.BatchingTransparent | internal/job/store.go:72-111 | every split of one message stream gives the same database, all columns and unread included |
| Batching.BadIdLosesShardGroup | internal/job/store.go:183-190 | one id that is not decimal loses its whole shard group while the flush still returns nil |
| Batching.BadPairLosesUpserts | internal/job/store.go:261-266 | one bad one-to-one conversation loses the cursor updates of every one-to-one message of the batch while the flush still returns nil |
| BatchRuns.LoopTransparent | internal/job/store.go:72-111 | whatever arrivals, ticks, closes and cancellations cut the stream into, BatchLoop leaves the database of storing each record on its own |
| Retries.PairsCountedPerHit | internal/job/store.go:123-177 | whatever fails and whatever replies are lost, a flush adds to a one-to-one row the number of messages addressed to its user times the number of attempts whose upsert took effect, and leaves the row as it was if there is none |
| Retries.CountedOnceExactly | internal/job/store.go:154-169 | each message is counted exactly once if and only if none is addressed to the user or exactly one attempt's upsert took effect |
| Retries.PairCountedOnce | internal/job/store.go:123-177 | if the replies to these upserts arrive, a flush that succeeds counts each one-to-one message once for its receiver and a dead-lettered flush leaves the row as it was; inserts and group statements may lose their replies |
| Retries.LostReplyCountsTwice | internal/job/store.go:154-169 | for any batch, if the first attempt's upsert takes effect, its reply is lost and the second attempt succeeds, every message is counted twice |
| Retries.GroupCountedPerHit | internal/job/store.go:242-292 | whatever fails and whatever replies are lost, a group member's unread grows by exactly one for each attempt and message of another sender whose statement with the member's row was reached and took effect |
| Retries.GroupCountedAtMostPerAttempt | internal/job/store.go:242-292 | so a group member's unread grows by at most 3 per message and flush, whatever fails |
| Pipeline.FlushHandles | internal/job/store.go:123-140 | after a flush every record of the batch is in its table, in the dead-letter topic, or its dead-letter send failed |
| Pipeline.FlushKeepsExactly | internal/job/store.go:123-140 | a flush keeps a record exactly if it succeeds, the record's dead-letter send takes effect, an attempt had offered its row, or it had been kept already; it is dead-lettered only by a flush that fails |
| Pipeline.MoveKeeps | internal/job/runloop.go:45-67 | every move keeps the invariant: what the reader has passed is in flight in partition order or dealt with, and commits lag behind the reader |
| Pipeline.LogGrows | internal/logic/sendmsg.go:225-229 | the invariant survives new records at any time |
| Pipeline.CommitsRise | internal/job/store.go:143-151 | the committed offset of a partition never moves back |
| Pipeline.CommitMoves | internal/job/store.go:143-151 | a commit that takes effect moves each partition of the batch one past its highest record and no other partition; a failed one moves nothing |
| Pipeline.CrashRestarts | internal/job/runloop.go:45-67 | a restarted process reads on from what was committed, with nothing in flight |
| FetchLoop.StoreJob.StoreRunLoop | internal/job/runloop.go:45-67 | whatever the batch loop and the senders do between its steps, the loop is exactly the run of the job machine that its fetches, sends and cancellations describe, keeps the machine's invariant, goes on only while every fetch returns a record, and fails only by a fetch error with a living context; a record fetched but not delivered is left only when the context ended |
| FetchLoop.TurnIs | internal/job/runloop.go:45-67 | one turn, field by field: an error ends the loop, as a failure only while the context lives; a record fetched moves the reader behind it and becomes the last of the channel, or stays in hand when the context ends |
| FetchLoop.FlushAsMachine | internal/job/store.go:123-151 | the worker's flush of a batch leaves exactly what the machine's flush leaves |
| EndToEnd.LogCoherent | internal/logic/sendmsg.go:197-214 | with unique ids every record in the log is storable, and no two different ones meet in a unique key, whatever retries and rollbacks did |
| EndToEnd.LogBuildable | internal/logic/sendmsg.go:105-136 | every logged message can be turned into conversation rows, and the user whose unread it raises is the one msg.push is written for |
| EndToEnd.CommittedExactly | internal/job/store.go:123-195 | in every run with non-negative ids a committed record had its row offered to its table, or is in the dead-letter topic, or its dead-letter send failed, and its row is in the table exactly if at one of its offers neither unique key was taken before |
| EndToEnd.CommittedIsKept | internal/job/store.go:123-195 | in every run with unique ids a committed record is in its shard table, in the dead-letter topic, or its dead-letter send failed |
| EndToEnd.NoAckedLoss | internal/logic/sendmsg.go:225-258 | a code-0 ack names a record that is in the log once under the ack's id and seq, with the conversation, type and payload of a request with the same sender and client id; with unique ids and dead-letter sends that work, once covered by a commit it is whole in its shard table or in the dead-letter topic |
| EndToEnd.DlqFailureLoses | internal/job/store.go:382-389 | in any state of the job with something pending, if the statements and the dead-letter sends of the flush fail, every pending record is committed and nothing was written of it |
| StoreLimits.RepeatedIdLosesAcked | pkg/snowflake/snowflake.go:56-59 | without unique ids an acked message is lost: of two sends into one conversation under one id, both are acked and committed, every statement succeeds, and the second is in no table and not in the dead-letter topic, while a receiver's last_seq points at it |
| StoreLimits.LateMessageNeverPending | internal/logic/sendmsg.go:190-225 | log order need not be seq order: two sends cross, the receiver catches up with the later seq, and the earlier message is acked, stored and counted as unread although the conversation is not pending and nothing lies above the cursor |
| EndToEnd.SystemCursorsValid | internal/job/store.go:172-195 | with unique ids, in every reachable state of the whole system, crashes in the middle of a flush included, each last_seq is 0 or the seq of a stored message |
| Statements.RunBuilt | internal/job/store.go:172-195 | in every run each statement on conversation rows is one built from one-to-one messages, one built from a group message for members read for its group, a read cursor, or the join row of a valid event |
| IdSource.ClusterIdsUnique | pkg/snowflake/snowflake.go:41-74 | if the processes of each node number read clocks that do not step back, and a restarted one only reads milliseconds after the last one read before it, all requests get different, non-negative ids |
| Sync.ClampLimit | internal/logic/sync.go:75-83 | the page size is the value in 1..100 nearest to the requested one |
| Sync.ScanMembers | internal/logic/sync.go:174-180 | the scan holds exactly the stored messages of the conversation above the cursor |
| Sync.ScanAscends | internal/logic/sync.go:174-180 | the scan is strictly ascending, so each message occurs once |
| Sync.ScanResumes | internal/logic/sync.go:174-180 | continuing from the last message seen continues the same scan |
| Sync.StoreThenPull | internal/logic/sync.go:182-195 | storing a message and pulling it gives it back, except that a group message comes back with conv_type 1 |
| Sync.StoredColumns | internal/job/store.go:211-238 | a message is stored under its own id, conversation, seq, sender, type, payload and time, with status 0 |
| Sync.PageIsFull | internal/logic/sync.go:174-180 | a page is the first rows of the scan, limit of them or all there are |
| Sync.MayPullExactly | internal/logic/sync.go:57-72 | the two users of a pair's id may pull it, members a group's id, and nobody any other id |
| Sync.MaxSeqOfPair | internal/logic/sync.go:197-213 | for a pair's id max_seq is the last_seq of the row of the lower uid, 0 without a row |
| PairPull.TwinRows | internal/logic/sync.go:197-203 | in every reachable state, whatever failed, crashed or was read, the rows of the two users of a conversation exist together and have the same last_seq |
| PairPull.PullReportsOwnSeq | internal/logic/sync.go:197-213 | so in every reachable state a pull by either user reports that user's own last_seq |
| GroupPull.GroupMaxSeqIsZero | internal/logic/sync.go:197-213 | in every reachable state, with member lists of positive uids, a pull of a group reports max_seq 0 |
| Sync.SyncServer.PullMessages | internal/logic/sync.go:171-204 | the page of the scan in order, and for a pair's id the last_seq of the lower uid's row; a failed read of last_seq counts as 0 |
| Sync.SyncServer.SyncPull | internal/logic/sync.go:34-72 | code 0 exactly for a positive uid and a readable table if the uid is one of the two of a pair's id, or a member of the group of a group's id; other ids are answered 40201; with code 0 the clamped page and the last_seq, nothing otherwise |
| Sync.SyncServer.PendingConvs | internal/logic/sync.go:216-235 | exactly the user's rows with last_seq above read_seq, each once, with their type, last_seq and unread |
| Sync.SyncServer.MarkRead | internal/logic/sync.go:99-110 | bad arguments, a missing row and a cursor that is not behind change nothing; otherwise this row alone gets the new cursor and loses the distance moved from unread, not below 0 |
| CatchUp.Client.CatchUpConv | scripts/wsclient.go:211-242 | the loop ends, the messages shown are the first ones of one ascending scan from the start cursor; it is lost exactly at a request without response, not clean exactly at a refused or failed one, and otherwise reaches its target or the end of the scan; the target is the one told, raised by each response that reports more |
| CatchUp.Client.CatchUp | scripts/wsclient.go:211-251 | each conversation is caught up from its own cursor in one pass whose requests are the next ones sent, so their responses decide whether it is lost or clean; its final cursor is kept, exactly the finished ones with a positive cursor are acknowledged up to it, and the loop ends early exactly at the first request without response |
| CatchUp.PagingRefinesScan | scripts/wsclient.go:211-242 | for any page size the pages yield in ascending order, each once, exactly the stored messages between the start cursor and the final one, and undisturbed every one up to the final target |
| CatchUp.RaisedIs | scripts/wsclient.go:231-236 | the target is the greatest of the one told and those reported |
| PairPull.StaleBriefCloses | scripts/wsclient.go:211-242 | in every reachable state with unique ids, whatever target the client was told for a one-to-one conversation, an undisturbed pass with one response that reports max_seq reaches the present last_seq, so its ack closes the conversation |
| CatchUp.LateMessageExactly | internal/logic/sync.go:174-180 | a message that reaches the table after the cursor was taken is offered if and only if its seq is above the cursor |
| Closing.CaughtUpUnreadZero | internal/logic/sync.go:239-252 | a row whose read cursor has reached last_seq shows no unread message if each message was applied once |
| Closing.CatchUpCloses | scripts/wsclient.go:211-251 | after an undisturbed catch-up and its received-ack the conversation is no longer pending, and its unread is 0 if each message was applied once |
| Closing.SystemCatchUpCloses | internal/logic/sync.go:171-252 | the same in every state the whole system can reach with unique ids |
| Session.Acknowledge | internal/logic/sync.go:99-110 | the service's handling of a list of received-acks is the conditional update of each of its rows in turn |
| Session.CallCloses | scripts/wsclient.go:211-251 | after a whole call over the pending conversations whose requests were all answered, its acks leave no conversation of the user pending, and those caught up with show unread 0 if each message was applied once |
| Session.ComesOnline | scripts/wsclient.go:211-251 | a client told its pending conversations, whose requests are answered, finishes catch-up from any cursors, and once its acks are handled no conversation of its user is pending |
| Session.SystemComesOnline | scripts/wsclient.go:211-251 | the same over everything the store job can have executed in a run of the whole system with unique ids |
| Frames.PutHeader | pkg/protocol/frame.go:51-56 | the first 11 bytes become the header and the rest is untouched |
| Frames.WireLayout | pkg/protocol/frame.go:51-56 | the wire form byte by byte |
| Frames.Encode | pkg/protocol/frame.go:40-48 | an error exactly when the body exceeds 65536 bytes, otherwise version, command, sequence number and length byte by byte with the high byte first, then the body |
| Frames.Decode | pkg/protocol/frame.go:61-75 | what parsing the buffer gives, error by error; the error is that of a too large body exactly when the header announces more than 65536 bytes |
| Frames.DecodeExactly | pkg/protocol/frame.go:61-75 | decoding accepts exactly an encoding followed by a multiple of 2^32 bytes, over all inputs |
| Frames.DecodeEncodings | pkg/protocol/frame.go:61-75 | for inputs shorter than 2^32 bytes decoding accepts exactly the encodings and inverts them |
| Frames.LongInputAccepted | pkg/protocol/frame.go:69-71 | a frame followed by 2^32 bytes decodes to the frame |
| Frames.StreamRoundTrip | pkg/protocol/frame.go:99-124 | reading the concatenated encodings of any frames gives those frames, then the end of the stream |
| Frames.CleanEofAtBoundary | pkg/protocol/frame.go:99-124 | a clean EOF is reported only when the stream is a concatenation of whole encodings |
| Frames.CutStream | pkg/protocol/frame.go:99-124 | a stream cut inside a frame gives the frames before the cut and the error that cut it, where EOF is unexpected |
| Frames.TooLargeStream | pkg/protocol/frame.go:103-124 | a header that announces more than 65536 bytes ends the reading there, after the frames before it |
| FrameStream.WsReader.Read | internal/comet/server.go:389-410 | at least one and the next bytes of the joined messages, or the error at their end, with empty messages skipped |
| FrameStream.ReadFull | pkg/protocol/frame.go:104-106 | the buffer is filled with the next bytes, or the error of the stream, where an EOF after some bytes is unexpected |
| FrameStream.StreamReader.ReadFrame | pkg/protocol/frame.go:103-124 | the next frame of the stream and what is left, or its error |
| FrameStream.StreamReader.ReadLoop | internal/comet/server.go:157-166 | all frames of the stream up to its first error |
| FrameStream.WholeContent | internal/comet/server.go:389-410 | whole binary messages are joined to exactly their bytes |
| FrameStream.CutContent | internal/comet/server.go:389-410 | a message that is not binary ends the bytes before it, one that breaks off ends them with its data |
| FrameStream.ReceiveAll | internal/comet/server.go:157-166 | any split of the encodings into binary messages and any short reads give back exactly the frames |
| FrameStream.ReceiveUntilText | internal/comet/server.go:157-166 | if a message that is not binary follows, exactly the frames before it are returned |
| Snowflake.FieldsDecode | pkg/snowflake/snowflake.go:73 | inside the 41-bit range the id is a non-negative int64 from which time, node and sequence are read back |
| Snowflake.StepOrder | pkg/snowflake/snowflake.go:50-74 | a call repeats the last id exactly when the clock stands behind the last millisecond used; otherwise the id is greater: the next number within the millisecond, or sequence 0 of a later one |
| Snowflake.RestartRepeatsExactly | pkg/snowflake/snowflake.go:41-74 | the first id after a restart under the same node number repeats an id of an earlier process exactly if its clock reads a millisecond that process had used |
| Snowflake.Node.Next | pkg/snowflake/snowflake.go:50-74 | one call is one step of the generator for the readings it took, and the wait ends |
| Snowflake.NewNode | pkg/snowflake/snowflake.go:41-46 | a node exactly for numbers 0..1023 |
| Snowflake.RunOrder | pkg/snowflake/snowflake.go:50-74 | over a run with any clock ids never decrease, and two are equal exactly when the clock stood behind at every call between |
| Snowflake.MonotoneRun | pkg/snowflake/snowflake.go:50-74 | with a clock that never steps back ids strictly increase across sequence wrap and waiting |
| Snowflake.NodesNeverCollide | pkg/snowflake/snowflake.go:73 | ids of different nodes never coincide, whatever their clocks do |
| Dedup.RememberedExactly | scripts/wsclient.go:362-373 | a non-empty id is remembered exactly while it is one of the last cap accepted ids |
| Dedup.Lru.Add | scripts/wsclient.go:362-373 | an id is refused exactly while remembered; a refusal changes nothing, an acceptance moves the window by one |
| Dedup.SeenIsWindow | scripts/wsclient.go:350-373 | the set is the ring's non-empty contents and never larger than cap |
| Dedup.EmptyIdSticks | scripts/wsclient.go:366-368 | an accepted empty id is refused for ever |
| ConnTable.ChangeRefines | internal/comet/bucket.go:30-45 | setting or removing an entry in its bucket is doing so in one flat table keyed by uid and device, with the total size kept |
| ConnTable.IdleUnion | internal/comet/bucket.go:56-66 | the idle scans of all buckets find exactly the idle connections of the flat table |
| ConnTable.Server.Put | internal/comet/bucket.go:30-34 | registration sets the flat entry and returns the one it replaced |
| ConnTable.Server.Del | internal/comet/bucket.go:37-45 | removal removes the flat entry and says whether there was one |
| ConnTable.Server.Find | internal/comet/bucket.go:48-52 | a lookup is a lookup in the flat table |
| ConnTable.Server.OnlineCount | internal/comet/server.go:422-428 | the sum over the buckets is the size of the flat table |
| ConnTable.Server.IdleScan | internal/comet/server.go:83-108 | the victims of all buckets are exactly the flat table's idle connections, each once |
| ConnTable.Bucket.IdleConns | internal/comet/bucket.go:56-66 | the victims of one bucket are exactly its idle connections, each once |
| Members.CoherentExactly | internal/service/members.go:57-76 | the cache stays empty or equal to the table in every continuation without changes if and only if it is so now and no load in flight holds an outdated snapshot |
| Members.CoherentAfterEvent | internal/job/group.go:38-50 | after a DEL that took effect when all loads from before the last change were finished, the cache stays empty or equal to the table until the next change, despite concurrent backfills |
| Members.AnswersAreTheTable | internal/service/members.go:29-54 | in that state every finished call returns exactly the table's members |
| Members.BackfillAdds | internal/service/members.go:65-71 | a backfill only adds: the cache then holds what it held and the printed uids of the snapshot |
| Members.StalePoisons | internal/service/members.go:65-71 | an outdated snapshot in flight can always make the cache wrong |
| MembersService.ParseUids | internal/service/members.go:83-91 | the values that parse, at ascending positions, none lost or doubled |
| MembersService.PrintUids | internal/service/members.go:66-68 | the printed uids of the rows |
| MembersService.GroupMembers.Members | internal/service/members.go:29-76 | while changes, events, evictions and other calls go on between its commands, one call leaves exactly what the cache machine leaves after the call's own commands with the outcomes of its environment, and returns what the machine returns |
| MembersService.MembersAlone | internal/service/members.go:29-76 | an undisturbed call: a cache with something in it is parsed and left alone, an error of the cache falls back to the table without repair, an empty one is filled with the printed table |
| MembersService.GroupMembers.Invalidate | internal/service/members.go:79-81 | deletes the cached set if the command took effect |
| MembersService.GroupEventWorker.Handle | internal/job/group.go:38-70 | a valid event deletes the cached set, a join also creates the row; an invalid one changes nothing |

## Left out

- Protobuf, JSON and generated code: marshalling is a lossless conversion of datatypes.
- CRC-32 in the choice of the shard table: the shard is an arbitrary function of the conversation id.
- SQL text, INT and SMALLINT widths, and truncation of payloads at the 65000-byte column: a payload is stored whole.
- Timestamps of acks and `NOW()`: an ack carries code, id and seq, and update times are parameters.
- Commands that time out and take effect after later commands: a lost reply takes effect before the caller goes on.
- Partition rebalancing, several job instances over one group, and start offsets: one reader starts at offset 0.
- RunLoop, which commits after each handled record of the other topics, is not modelled.
- Replayed values that do not decode as JSON: only sendMsg writes the key, so the branch is not reached.
- Friend cache and its backfill: whether two users are friends is an answer of the environment.
- Frame size of SYNC_RESP pages and frames skipped while waiting for one: a page fits, and a response arrives or does not.
- Delivery of pushes to online devices, presence, kick, drain timers and same-device reconnect staying registered (cleanup deletes by key).
- Locks of buckets and of the id generator: each method is atomic.
- Account service, tokens, HTTP handlers, metrics, configuration and the dead-letter replay tool.
