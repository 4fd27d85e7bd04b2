# Verification of the Yi-Rang message queue

A Dafny model of the parts of the message queue on which delivery depends, with proofs. A message is
ready, delayed, inflight, in the dead letter queue (DLQ) or acked; three storage backends implement
that lifecycle, a sweeper drives it, clients reach it through a file mailbox, and two codecs carry data.

`dafny verify dfyconfig.toml` checks everything.

| file | what it is about |
|---|---|
| Lifecycle.dfy | the life of one message as an abstract machine, and what follows for whole runs |
| Types.dfy, Keys.dfy, FileNames.dfy | messages, policies, faults; key strings and meta file names; file-name order |
| IndexTable.dfy, Database.dfy | the message index table; a connection with transactions, cascade and failing statements |
| Sqlite.dfy, SqliteRuns.dfy | SQLiteAdapter and its runs |
| RetryRules.dfy, QueueManager.dfy | policy validation and backoff; the sweep over SQLiteAdapter |
| Hybrid.dfy, HybridRuns.dfy, HybridSweep.dfy | HybridAdapter with crash points, check and repair; its runs; the sweep over it |
| FileSystem.dfy, FileSystemRuns.dfy, FileSystemSweep.dfy | FileSystemAdapter, one crash point per file operation; its runs; the sweep over it |
| Mailbox.dfy, MailboxWorker.dfy | the request protocol as a concurrent state machine; the worker that follows it |
| Base64.dfy, Archive.dfy | the two codecs |

How the pieces fit. Each adapter is a class whose methods are proved against a function on values
(`Apply` in its module). Every theorem about runs is proved about these functions: each backend module
shows that its calls are steps of the lifecycle machine, so lease exclusivity, bounded redelivery and
no early delivery hold for all three. Failures are drawn at random: of database statements and commits
in SQLite and Hybrid and of payload file operations in Hybrid, whose contracts say what each failure leaves; of file
operations in FileSystem, whose contracts say that messages stay conserved at every one, and in the mailbox, where each
is a step of the protocol. Ghost traces record what a crash after each effect would leave behind. The source's one
QueueManager works over any backend; its loop is verified over each of the three.

## What is taken for granted

- The clock is a parameter of each call and never goes back within a run; a call reads it once.
- Queue names are not empty, hold no `:` and differ from the meta directory; ids hold neither `:` nor `_`
  (as `CommonLibrary/Utilities/Generator.cpp:16` makes them); a published key is never generated again.
- Serialising an envelope and parsing it back are inverse, so envelopes and metas are records.
- A transaction that cannot be committed can be rolled back. The adapter is open.
- In the run theorems on the lifecycle (SqliteRuns, HybridRuns, FileSystemRuns) the sweep acts on a fresh snapshot.
  The side tables of FileSystemRuns are proved for stale snapshots too.
- A signed 32-bit product that overflows, undefined in the source's language, wraps around.
- A write of a file that starts completes; renames, creations, removals and reads may fail, and a crash may fall
  between any two effects (FileSystem, Hybrid).
- Sizes are laid out least significant byte first.

## Where the code and its documentation differ

- `lease_next` takes the highest priority number first (`MainMQ/BackendAdapter/SQLiteAdapter.cpp:262`); the
  repository's README says that 0 is the highest priority (`README.md:303`). The model follows the code.
- `extend_lease` and `nack` of SQLiteAdapter report success when no row matched.
- SQLite `ack` deletes a message in any state, not only an inflight one.

## What turned out false, and exactly when

- One check and repair does not always make good a crash or failure: not always for a live message on its way to the
  DLQ by `move_to_dlq`, nor for an enqueue under a key that has a row, nor for a nack that buries while file operations
  may fail; always for every other operation: `Hybrid.FailuresAreRepairedIff`.
- Hybrid `enqueue` under a key with a live row destroys that row's payload: `Hybrid.EnqueueKeepsAgreementIff`.
- A check whose directory listing fails reports live payloads as missing, and repairing that report makes the messages
  dead for good: `Hybrid.MistakenReportIff`.
- `delay_message` and `move_to_dlq` have no guard against a message leased again since the snapshot. On a stale snapshot
  they do what no sweeper step allows, to a leased message at the cost of lease exclusivity, exactly when what they meet
  is no expired lease and something changes: `StaleDelayIff` and `StaleBuryIff` in `SqliteRuns`, `HybridRuns` and
  `FileSystemRuns`. On SQLite and Hybrid they act on messages in any state, and `Hybrid.DelayKeepsAgreementIff` says when
  rows and payloads come apart.
- A FileSystem lease extended under a string that shares the meta file but does not spell the id is never swept:
  `FileSystemSweep.ReachedIffSpelled`.
- FileSystem `enqueue` under a used key leaves two files of the message: `FileSystem.CreateConservesIff`.
- The linear backoff leaves its range as soon as the 32-bit product overflows: `RetryRules.LinearInRangeIff`.
- `from_base64` writes outside its buffer for some texts its encoder never makes: `Base64.OverrunIff`.
- The archive loses paths with a byte order mark and records of 2^32 bytes or more: `Archive.RoundTripExactly`.

## Model

| member | source | states |
|---|---|---|
| Lifecycle.NeverEarly | MainMQ/BackendAdapter/FileSystemAdapter.cpp:147-283 | on a clock that never goes back a ready message is due at every moment, so no lease is ever early |
| Lifecycle.HeldUntilReleased | MainMQ/QueueManager.cpp:127-199 | from a lease on, a message is nacked, acked, still held under its current expiry, or that expiry lies strictly in the past |
| Lifecycle.LeaseExclusive | MainMQ/BackendAdapter/SQLiteAdapter.cpp:601-615 | between two successive leases of a message there was a nack, or the second comes strictly after the current expiry of the first |
| Lifecycle.NoRevival | MainMQ/BackendAdapter/SQLiteAdapter.cpp:932-943 | a lease that can be expired can never again be extended while it lasts |
| Lifecycle.BudgetKept | MainMQ/QueueManager.cpp:220-277 | without requeue and reprocess the attempt counter is the number of leases, and stays within max(1, limit) |
| Lifecycle.AttemptsAreLeases | MainMQ/QueueManager.cpp:220-277 | the same counted as the set of lease moments, for every state that is not dead or acked |
| Lifecycle.BoundedRedelivery | MainMQ/QueueManager.cpp:127-277 | such a message, published with attempt 0 and the DLQ on, is leased at most max(1, retry limit) times |
| Lifecycle.Progress | MainMQ/QueueManager.cpp:127-277 | every real event lowers the lexicographic measure (attempts left, phase) until the message is acked or dead |
| Keys.RenderShape | MainMQ/MailboxHandler.cpp:754 | msg:, the queue, a separator, the id; in a meta file name exactly the separators are replaced |
| Keys.RenderRoundTrip | MainMQ/BackendAdapter/FileSystemAdapter.cpp:1152-1168 | splitting a rendered key msg:queue:id gives back exactly its queue and id |
| Keys.RenderInjective | MainMQ/BackendAdapter/HybridAdapter.cpp:1087-1112 | two legal keys with the same rendering are the same key |
| Keys.SafeNameInjective | MainMQ/BackendAdapter/FileSystemAdapter.cpp:1049-1052 | meta file names are injective on legal keys although they replace the separator by an underscore |
| Keys.AliasNamesSameId | MainMQ/BackendAdapter/FileSystemAdapter.cpp:1065-1076 | any key string that shares a meta file with a message names the id of that message or an id no message has |
| Keys.UnderscoreIdsCollide | MainMQ/BackendAdapter/FileSystemAdapter.cpp:1049-1052 | with underscores allowed in ids two different messages share one meta file |
| RetryRules.Configurations.ValidateRetryPolicy | MainMQ/Configurations.cpp:565-602 | whatever is configured, the result is sound: 0 < initial <= max, limit >= 0, a known backoff; it equals the corrected policy |
| RetryRules.Configurations.ValidateQueuePolicy | MainMQ/Configurations.cpp:604-624 | same for a queue policy, with positive visibility timeout and retention |
| RetryRules.Configurations.Validate | MainMQ/Configurations.cpp:524-563 | the lease settings, the defaults and every queue end corrected, names and order unchanged |
| RetryRules.DefaultsAre | MainMQ/Configurations.cpp:565-624 | exactly what each value out of range is replaced by: 30, 1, 60, 14, limit 0, exponential; values in range stay |
| RetryRules.CorrectionIsIdempotent | MainMQ/Configurations.cpp:565-624 | validating again changes nothing, and nothing changes at all exactly for sound policies |
| RetryRules.ExponentialDoubles | MainMQ/QueueManager.cpp:281-286 | the first exponential delay is the initial one, each later one twice the one before until the maximum is reached; below attempt 1 it halves |
| RetryRules.LinearAndFixedAre | MainMQ/QueueManager.cpp:287-299 | linear: initial times attempt, at most the maximum, while the product fits 32 bits; fixed: always the initial delay |
| RetryRules.DigitsAreDecimal | MainMQ/QueueManager.cpp:234 | the attempt in the DLQ reason is written in decimal, without leading zeros |
| RetryRules.ReasonExample | MainMQ/QueueManager.cpp:234 | the reason text for attempts 13 and -2 |
| RetryRules.BackoffInRange | MainMQ/QueueManager.cpp:279-300 | for a sound policy and attempt >= 1 the delay lies between initial and max in all three modes |
| RetryRules.BackoffMonotone | MainMQ/QueueManager.cpp:279-300 | the delay never shrinks from one attempt to a later one |
| RetryRules.LinearOverflowIsNegative | MainMQ/QueueManager.cpp:287-293 | the first attempt whose linear 32-bit product overflows gets a negative delay |
| RetryRules.LinearOverflowExample | MainMQ/QueueManager.cpp:287-293 | two attempts of 2^30 seconds give a delay of -2^31 seconds |
| RetryRules.LinearInRangeIff | MainMQ/QueueManager.cpp:287-293 | a linear policy keeps all delays up to attempt n in range exactly when the product for n fits 32 bits |
| Database.Connection.Begin | CommonLibrary/DataBase/SQLite.cpp:440-443 | starting a transaction changes neither visible nor durable tables |
| Database.Connection.Commit | CommonLibrary/DataBase/SQLite.cpp:445-448 | after a successful commit the visible tables are the durable ones; after a failed one nothing durable changed |
| Database.Connection.Rollback | CommonLibrary/DataBase/SQLite.cpp:450-453 | the tables are again what was durable before |
| Database.Connection.DeleteKv | MainMQ/sqlite_schema.sql:20-31 | with foreign keys on, deleting a kv row takes its index row along |
| Database.Connection.SelectNext | MainMQ/BackendAdapter/SQLiteAdapter.cpp:256-283 | the row returned is a best eligible one: highest priority, then earliest available time; none only if none is eligible |
| Database.Connection.First | MainMQ/BackendAdapter/SQLiteAdapter.cpp:262 | the row the ordering puts first: no other has a higher priority, none of the same priority is available earlier |
| IndexDraining.DrainOrder | MainMQ/BackendAdapter/SQLiteAdapter.cpp:256-313 | leasing at one instant until nothing comes yields exactly the eligible rows, each once, by priority descending then available time ascending |
| Sqlite.SqliteAdapter.EnqueueMessage | MainMQ/BackendAdapter/SQLiteAdapter.cpp:141-231 | both rows or neither, under any statement or commit failure; refused exactly on an existing key when nothing fails |
| Sqlite.SqliteAdapter.LeaseNextMessage | MainMQ/BackendAdapter/SQLiteAdapter.cpp:233-379 | leases a best eligible message with attempt plus one and the stated expiry, or leaves both tables as they were; an envelope that does not parse leaves the row inflight |
| Sqlite.SqliteAdapter.AckMessage | MainMQ/BackendAdapter/SQLiteAdapter.cpp:381-446 | deletes the kv row in whatever state and, by the cascade, the index row; all or nothing |
| Sqlite.SqliteAdapter.NackMessage | MainMQ/BackendAdapter/SQLiteAdapter.cpp:448-580 | requeues or buries an inflight message; a failure report leaves both tables untouched, only the note may be lost |
| Sqlite.SqliteAdapter.ExtendLeaseOf | MainMQ/BackendAdapter/SQLiteAdapter.cpp:582-631 | moves the expiry exactly of a lease still running; success is reported for zero rows too |
| Sqlite.SqliteAdapter.RecoverExpiredLeases | MainMQ/BackendAdapter/SQLiteAdapter.cpp:795-855 | all expired rows ready again or none, and how many |
| Sqlite.SqliteAdapter.ProcessDelayedMessages | MainMQ/BackendAdapter/SQLiteAdapter.cpp:857-917 | all due delayed rows ready or none, and how many |
| Sqlite.SqliteAdapter.GetExpiredInflightMessages | MainMQ/BackendAdapter/SQLiteAdapter.cpp:919-955 | the snapshot holds every expired lease once with its attempt, and nothing else; under failures a part of it |
| Sqlite.SqliteAdapter.Delay | MainMQ/BackendAdapter/SQLiteAdapter.cpp:957-1004 | delays the message whatever its state, all or nothing |
| Sqlite.SqliteAdapter.Bury | MainMQ/BackendAdapter/SQLiteAdapter.cpp:1006-1095 | moves the message to the DLQ whatever its state, all or nothing but for the note |
| Sqlite.SqliteAdapter.ReprocessDlqMessage | MainMQ/BackendAdapter/SQLiteAdapter.cpp:1230-1321 | only a dlq row becomes ready with attempt 0; all or nothing but for the note |
| Sqlite.AgreementKept | MainMQ/BackendAdapter/SQLiteAdapter.cpp:1097-1143 | kv and index keys coincide and lease_until is set exactly on inflight rows: kept by every operation however it ends |
| Sqlite.AgreementAlways | MainMQ/sqlite_schema.sql:6-31 | the same in every state of every interleaving of calls, failing ones included |
| SqliteRuns.RunContinues | MainMQ/BackendAdapter/SQLiteAdapter.cpp:141-1321 | every run can be continued at any later time by any client call, promotion or sweep, however that ends |
| SqliteRuns.StepIsLife | MainMQ/BackendAdapter/SQLiteAdapter.cpp:141-1321 | every call is, message by message, a step of the lifecycle |
| SqliteRuns.RunIsLife | MainMQ/BackendAdapter/SQLiteAdapter.cpp:141-1321 | every run is, message by message, a run of the lifecycle |
| SqliteRuns.LeaseReturnsPublished | MainMQ/BackendAdapter/SQLiteAdapter.cpp:141-379 | every lease returns payload, attributes, priority and creation time as published, to a consumer the target admits, with one more attempt |
| SqliteRuns.NeverEarly | MainMQ/BackendAdapter/SQLiteAdapter.cpp:206-207 | whenever a call is made every ready row is due |
| SqliteRuns.LeaseExclusive | MainMQ/BackendAdapter/SQLiteAdapter.cpp:601-615 | between two leases of a message by lease_next there was a nack of it, or the second comes strictly after the expiry of the first as extended; without extensions, after its time plus the visibility |
| SqliteRuns.BoundedRedelivery | MainMQ/BackendAdapter/SQLiteAdapter.cpp:233-379 | the calls of lease_next that return a message published with attempt 0 are at most max(1, retry limit) under one policy with the DLQ on, without requeue and reprocess of it |
| SqliteRuns.DrainingOrder | MainMQ/BackendAdapter/SQLiteAdapter.cpp:256-313 | draining order for the adapter calls themselves |
| SqliteRuns.StaleDelayIff | MainMQ/BackendAdapter/SQLiteAdapter.cpp:957-1004 | on whatever row a delay meets, it does what the sweeper may do (nothing, or expire a lease under some policy) exactly when the lease there is expired or the row stays as it is |
| SqliteRuns.StaleBuryIff | MainMQ/BackendAdapter/SQLiteAdapter.cpp:1006-1095 | on whatever row a move to the DLQ meets, it does what the sweeper may do exactly when the lease there is expired or the message is already dead |
| SqliteRuns.StaleDelayBreaksALease | MainMQ/BackendAdapter/SQLiteAdapter.cpp:975-978 | a concrete message leased again since the snapshot: the stale release, which no sweeper step allows, gives it to another consumer before its expiry |
| QueueManager.QueueManager.RegisterQueue | MainMQ/QueueManager.cpp:89-96 | the policy of that queue is replaced, in the manager always, in the backend unless saving it fails unnoticed; the others stay |
| QueueManager.QueueManager.ApplyRetryOrDlq | MainMQ/QueueManager.cpp:220-277 | below the limit the message is delayed by its backoff, at or over it buried if the DLQ is on, else untouched |
| QueueManager.QueueManager.HandleExpired | MainMQ/QueueManager.cpp:151-187 | without a policy the message is released at once, otherwise retry or DLQ |
| QueueManager.QueueManager.RecoverExpiredLeases | MainMQ/QueueManager.cpp:127-199 | the loop over the snapshot equals the sweep as one simultaneous step; with failing statements each message is still swept or untouched |
| QueueManager.QueueManager.ProcessDelayedMessages | MainMQ/QueueManager.cpp:201-218 | promotes all due messages or changes nothing |
| QueueManager.OneSwept | MainMQ/QueueManager.cpp:151-187 | one loop round extends the swept part by one message and disturbs no other |
| QueueManager.SweptOrKeptMeans | MainMQ/QueueManager.cpp:127-199 | with failing statements every row and envelope is as before or as a complete sweep makes it, and a note is only written with a burial |
| QueueManager.SweepComplete | MainMQ/QueueManager.cpp:127-277 | after a sweep an expired lease is still inflight exactly at or over the limit with the DLQ off; it is buried or delayed by its backoff otherwise; all others are untouched |
| QueueManager.ReleasedBecomeReady | MainMQ/BackendAdapter/SQLiteAdapter.cpp:857-917 | once time reaches its available time every released message is made ready, attempt kept |
| QueueManager.SweepIsExhaustive | MainMQ/QueueManager.cpp:127-199 | a second sweep at the same instant finds nothing to move |
| Hybrid.HybridAdapter.EnqueueMessage | MainMQ/BackendAdapter/HybridAdapter.cpp:217-308 | done, untouched, payload withdrawn, or payload written and not withdrawn, and every durable state on the way, under any failing statement, commit or file operation |
| Hybrid.HybridAdapter.LeaseNextMessage | MainMQ/BackendAdapter/HybridAdapter.cpp:310-432 | leases a best eligible row and returns payload and attributes of its file, empty ones if it cannot be opened, or changes nothing; unparseable data leaves the row inflight |
| Hybrid.HybridAdapter.AckMessage | MainMQ/BackendAdapter/HybridAdapter.cpp:434-501 | done, untouched, or rows gone with the payload left in active by a failing rename; every durable state on the way |
| Hybrid.HybridAdapter.NackMessage | MainMQ/BackendAdapter/HybridAdapter.cpp:503-590 | requeued or buried, note possibly lost, payload left in active by a failing rename; a failing commit after the rename leaves the row inflight with its payload in dlq |
| Hybrid.HybridAdapter.ExtendLeaseOf | MainMQ/BackendAdapter/HybridAdapter.cpp:592-614 | moves the expiry exactly of a lease still running |
| Hybrid.HybridAdapter.RecoverExpiredLeases | MainMQ/BackendAdapter/HybridAdapter.cpp:769-814 | every expired row ready and available now, with the count, or nothing |
| Hybrid.HybridAdapter.ProcessDelayedMessages | MainMQ/BackendAdapter/HybridAdapter.cpp:816-859 | every due delayed row ready, with the count, or nothing |
| Hybrid.HybridAdapter.GetExpiredInflightMessages | MainMQ/BackendAdapter/HybridAdapter.cpp:861-900 | the snapshot holds every expired lease once with its attempt, and nothing else |
| Hybrid.HybridAdapter.Delay | MainMQ/BackendAdapter/HybridAdapter.cpp:902-926 | delayed for a positive delay, ready otherwise, whatever the state was |
| Hybrid.HybridAdapter.Bury | MainMQ/BackendAdapter/HybridAdapter.cpp:928-997 | tables committed, then payload renamed unless the row could not be read or the rename fails; every durable state on the way |
| Hybrid.HybridAdapter.ReprocessDlqMessage | MainMQ/BackendAdapter/HybridAdapter.cpp:1159-1241 | a dlq row ready with attempt 0, then payload back to active unless the rename fails, or untouched; every durable state on the way |
| Hybrid.HybridAdapter.CheckConsistency | MainMQ/BackendAdapter/HybridAdapter.cpp:1356-1539 | the report holds exactly the disagreements between rows and files and the stale archives in scope, each once, and its counters are their numbers; under failures it may lose issues, failing queries may add orphans, failing listings missing payloads, nothing else |
| Hybrid.HybridAdapter.RepairConsistency | MainMQ/BackendAdapter/HybridAdapter.cpp:1541-1691 | the loop applies every issue of any report in order and counts the repairs; under failures nothing but repairs has happened |
| Hybrid.HybridAdapter.CheckAndRepair | MainMQ/BackendAdapter/HybridAdapter.cpp:1356-1691 | checking and repairing the report is one round of the convergence lemmas, with the stale archives removed; live payload files stay in any case |
| Hybrid.RepairAllIsRound | MainMQ/BackendAdapter/HybridAdapter.cpp:1541-1691 | repairing a complete report, in whatever order it lists the issues, is one simultaneous round on all messages and clears the stale archives |
| Hybrid.OrphanIsReady | MainMQ/BackendAdapter/HybridAdapter.cpp:1556-1621 | a payload without a row comes back ready, available now to every consumer of its queue, with attempt and priority 0 and a fresh envelope unless there is one |
| Hybrid.OrphanIsLeased | MainMQ/BackendAdapter/HybridAdapter.cpp:394-421 | the lease of such a message hands out payload and attributes of its file |
| Hybrid.MissingIsDead | MainMQ/BackendAdapter/HybridAdapter.cpp:1628-1650 | a row without its payload becomes dead with all other columns and the envelope kept; rows with their payload stay as they are |
| Hybrid.NoIssueIffAgree | MainMQ/BackendAdapter/HybridAdapter.cpp:1356-1539 | nothing to report exactly when every payload is where its row says |
| Hybrid.OneRoundIff | MainMQ/BackendAdapter/HybridAdapter.cpp:1541-1691 | the exact situations of a message that one check and repair brings to agreement |
| Hybrid.TwoRoundsOn | MainMQ/BackendAdapter/HybridAdapter.cpp:1356-1691 | after two rounds, from any state, every file has a row and every active-class row its payload; clean exactly for the listed starting situations |
| Hybrid.TwoRoundsReachFixpoint | MainMQ/BackendAdapter/HybridAdapter.cpp:1356-1691 | from any state a third round changes nothing |
| Hybrid.ZeroReportIff | MainMQ/BackendAdapter/HybridAdapter.cpp:1356-1691 | after two rounds the counters of orphan and missing payloads are zero exactly when every message started clean |
| Hybrid.FailuresAreRepairedIff | MainMQ/BackendAdapter/HybridAdapter.cpp:217-1241 | from agreement, one round makes good everything an operation may leave, by a crash or by any failing statement, commit or file operation, exactly unless it moves a live message to the DLQ, enqueues under a key that has a row, or buries by nack while file operations may fail |
| Hybrid.CrashesAreRepairedIff | MainMQ/BackendAdapter/HybridAdapter.cpp:217-1241 | the same for the crash points of an operation in which nothing fails |
| Hybrid.BuriedWindowStays | MainMQ/BackendAdapter/HybridAdapter.cpp:976-994 | the state between commit and rename of move_to_dlq on a live message is a fixpoint of repair, reported as orphan and as missing for ever |
| Hybrid.MistakenReportIff | MainMQ/BackendAdapter/HybridAdapter.cpp:1468-1497 | a payload reported missing only because its directory could not be listed: repairing that report is made good by later rounds exactly when the message was not live |
| Hybrid.EnqueueKeepsAgreementIff | MainMQ/BackendAdapter/HybridAdapter.cpp:246-276 | enqueue keeps agreement exactly when its key has no live row |
| Hybrid.DelayKeepsAgreementIff | MainMQ/BackendAdapter/HybridAdapter.cpp:902-926 | delay keeps agreement exactly when the message is not in the DLQ |
| Hybrid.OthersKeepAgreement | MainMQ/BackendAdapter/HybridAdapter.cpp:310-1241 | every other operation keeps agreement |
| HybridRuns.NothingToReport | MainMQ/BackendAdapter/HybridAdapter.cpp:1356-1539 | rows and payload files agree in every reachable state, so a check reports no payload |
| HybridRuns.LeaseReturnsPublished | MainMQ/BackendAdapter/HybridAdapter.cpp:394-421 | every lease returns payload, attributes, priority and creation time as published, to a consumer the target admits, with one more attempt |
| HybridRuns.RunContinues | MainMQ/BackendAdapter/HybridAdapter.cpp:217-1241 | every run can be continued at any later time by any client call, promotion or action of the sweeper |
| HybridRuns.StepIsLife | MainMQ/BackendAdapter/HybridAdapter.cpp:217-1241 | every call is, message by message, a step of the lifecycle |
| HybridRuns.RunIsLife | MainMQ/BackendAdapter/HybridAdapter.cpp:217-1241 | every run is, message by message, a run of the lifecycle |
| HybridRuns.NeverEarly | MainMQ/BackendAdapter/HybridAdapter.cpp:232-233 | whenever a call is made every ready row is due |
| HybridRuns.LeaseExclusive | MainMQ/BackendAdapter/HybridAdapter.cpp:605-611 | between two leases of a message by lease_next there was a nack of it, or the second comes strictly after the expiry of the first as extended; without extensions, after its time plus the visibility |
| HybridRuns.BoundedRedelivery | MainMQ/BackendAdapter/HybridAdapter.cpp:335-362 | the calls of lease_next that return a message published with attempt 0 are at most max(1, retry limit) under one policy with the DLQ on, without requeue and reprocess of it |
| HybridRuns.DrainingOrder | MainMQ/BackendAdapter/HybridAdapter.cpp:335-362 | draining order for the adapter calls themselves |
| HybridRuns.StaleDelayIff | MainMQ/BackendAdapter/HybridAdapter.cpp:902-926 | on whatever row a delay meets, it does what the sweeper may do exactly when the lease there is expired or the row stays as it is |
| HybridRuns.StaleBuryIff | MainMQ/BackendAdapter/HybridAdapter.cpp:928-997 | on whatever row a move to the DLQ meets, it does what the sweeper may do exactly when the lease there is expired or the message is already dead |
| HybridRuns.StaleDelayBreaksALease | MainMQ/BackendAdapter/HybridAdapter.cpp:917-923 | a concrete message leased again since the snapshot: the stale release, which no sweeper step allows, makes it at once available to another consumer |
| HybridSweep.Sweeper.HandleExpired | MainMQ/QueueManager.cpp:151-187 | release without a policy, retry, burial or nothing, as one backend call, with what that call may leave when something fails |
| HybridSweep.Sweeper.RecoverExpiredLeases | MainMQ/QueueManager.cpp:127-199 | over this backend too the loop equals the sweep of rows, envelopes and payload files as one simultaneous step; whatever fails, each expired message is swept, untouched, or swept without its note or its file move, and the others are untouched |
| HybridSweep.SweptOrKeptMeans | MainMQ/QueueManager.cpp:127-199 | whatever fails, every row, envelope and file is as before or as a complete sweep makes it, and none moves without its row |
| HybridSweep.SweepComplete | MainMQ/QueueManager.cpp:127-277 | an expired lease stays exactly at or over the limit with the DLQ off, every other one is buried or released at the right time, the rest keep their rows |
| HybridSweep.SweepIsRunSegment | MainMQ/QueueManager.cpp:127-199 | a whole sweep is a segment of a run: one step per expired lease, in whatever order, leads to the state of the simultaneous sweep |
| HybridSweep.ReleasedBecomeReady | MainMQ/BackendAdapter/HybridAdapter.cpp:816-859 | once its delay is over a released message is made ready by the next promotion, with its attempt, envelope and payload |
| HybridSweep.SweepKeepsAgreement | MainMQ/QueueManager.cpp:127-199 | a sweep keeps rows and payload files in agreement |
| FileNames.LeqIsLexicographic | MainMQ/BackendAdapter/FileSystemAdapter.cpp:990-992 | names are ordered by the first character that differs, a name before its continuations |
| FileNames.SortedListing | MainMQ/BackendAdapter/FileSystemAdapter.cpp:968-994 | every file once, in file-name order |
| FileSystem.ConservedMeans | MainMQ/BackendAdapter/FileSystemAdapter.cpp:532-549 | what conservation says of one message: in exactly one of five directories if accepted, else in none, and unchanged field by field |
| FileSystem.MoveConserves | MainMQ/BackendAdapter/FileSystemAdapter.cpp:944-954 | renaming or rewriting a file keeps each message in exactly one directory with its body unchanged |
| FileSystem.CreateConservesIff | MainMQ/BackendAdapter/FileSystemAdapter.cpp:132-173 | publishing keeps one file per message exactly when the key is new or its file lies in the same directory |
| FileSystem.CountsAddUp | MainMQ/BackendAdapter/FileSystemAdapter.cpp:532-549 | the counts of the five directories add up to the number of accepted messages |
| FileSystem.PromoteOneMore | MainMQ/BackendAdapter/FileSystemAdapter.cpp:633-709 | promoting files one by one is promoting the whole set at once |
| FileSystem.FileSystemAdapter.CrashPointConserved | MainMQ/BackendAdapter/FileSystemAdapter.cpp:902-954 | at every recorded crash point each accepted message is on disk and nothing else is |
| FileSystem.FileSystemAdapter.Rename | MainMQ/BackendAdapter/FileSystemAdapter.cpp:944-954 | one crash point: the file moves or stays, conservation holds either way |
| FileSystem.FileSystemAdapter.Rewrite | MainMQ/BackendAdapter/FileSystemAdapter.cpp:902-926 | one crash point: only bookkeeping fields change |
| FileSystem.FileSystemAdapter.Create | MainMQ/BackendAdapter/FileSystemAdapter.cpp:902-926 | a message is accepted exactly when its file lands; conservation unless the key is in use elsewhere |
| FileSystem.FileSystemAdapter.EnqueueMessage | MainMQ/BackendAdapter/FileSystemAdapter.cpp:132-173 | conservation at every file operation unless the key is in use elsewhere; without faults inbox or delayed with its meta, for any key |
| FileSystem.FileSystemAdapter.FindMatch | MainMQ/BackendAdapter/FileSystemAdapter.cpp:190-218 | the first file in file-name order whose target admits the consumer; none only if there is none |
| FileSystem.FileSystemAdapter.LeaseNextMessage | MainMQ/BackendAdapter/FileSystemAdapter.cpp:175-283 | conservation at every file operation; without faults the picked file is in processing, its attempt counted in file and lease meta |
| FileSystem.FileSystemAdapter.AckMessage | MainMQ/BackendAdapter/FileSystemAdapter.cpp:285-338 | archived exactly when the lease meta names this consumer, is not past its expiry and the file is in processing |
| FileSystem.FileSystemAdapter.NackMessage | MainMQ/BackendAdapter/FileSystemAdapter.cpp:340-413 | back to the inbox or noted and buried, without looking at consumer or expiry |
| FileSystem.FileSystemAdapter.ExtendLeaseOf | MainMQ/BackendAdapter/FileSystemAdapter.cpp:415-451 | new expiry exactly for the holder of a lease not yet past |
| FileSystem.FileSystemAdapter.Metrics | MainMQ/BackendAdapter/FileSystemAdapter.cpp:532-549 | the four counts plus the archive equal the number of messages accepted |
| FileSystem.FileSystemAdapter.RecoverExpiredLeases | MainMQ/BackendAdapter/FileSystemAdapter.cpp:551-631 | every expired lease meta is gone and its file out of processing, other metas stay, moved files are unchanged and their number is returned |
| FileSystem.FileSystemAdapter.ProcessDelayedMessages | MainMQ/BackendAdapter/FileSystemAdapter.cpp:633-709 | exactly the due files move to the inbox and their metas go; their number is returned |
| FileSystem.FileSystemAdapter.GetExpiredInflightMessages | MainMQ/BackendAdapter/FileSystemAdapter.cpp:711-765 | every expired lease meta once, and only those |
| FileSystem.FileSystemAdapter.Delay | MainMQ/BackendAdapter/FileSystemAdapter.cpp:767-845 | inbox for no delay, else delayed with a new available time and meta; conservation at every file operation |
| FileSystem.FileSystemAdapter.Bury | MainMQ/BackendAdapter/FileSystemAdapter.cpp:847-900 | noted and moved to dlq; conservation at every file operation |
| FileSystem.FileSystemAdapter.ReprocessDlqMessage | MainMQ/BackendAdapter/FileSystemAdapter.cpp:1222-1284 | note removed, attempt 0, back to the inbox; conservation at every file operation |
| FileSystemRuns.MetaIff | MainMQ/BackendAdapter/FileSystemAdapter.cpp:1039-1138 | in processing exactly with a lease meta, in delayed exactly with a delayed meta; lease and envelope agree on queue, attempt (at least 1) and target |
| FileSystemRuns.HeldIsLeased | MainMQ/BackendAdapter/FileSystemAdapter.cpp:285-338 | whatever string a caller passes as key, the file it reaches is the one its lease meta belongs to |
| FileSystemRuns.SideTablesKept | MainMQ/BackendAdapter/FileSystemAdapter.cpp:175-900 | every client or sweeper call, with any key string, keeps the side tables in step with the directories |
| FileSystemRuns.SideTablesAlways | MainMQ/BackendAdapter/FileSystemAdapter.cpp:175-1138 | the same in every state of every interleaving of calls, stale sweeper calls included |
| FileSystemRuns.DlqIsSticky | MainMQ/BackendAdapter/FileSystemAdapter.cpp:1222-1284 | only reprocess takes a message out of the DLQ |
| FileSystemRuns.RunContinues | MainMQ/BackendAdapter/FileSystemAdapter.cpp:132-1284 | every run can be continued at any later time by any client call, promotion or action of the sweeper |
| FileSystemRuns.StepIsLife | MainMQ/BackendAdapter/FileSystemAdapter.cpp:132-1284 | every call is, message by message, a step of the lifecycle |
| FileSystemRuns.RunIsLife | MainMQ/BackendAdapter/FileSystemAdapter.cpp:132-1284 | every run is, message by message, a run of the lifecycle |
| FileSystemRuns.LeaseReturnsPublished | MainMQ/BackendAdapter/FileSystemAdapter.cpp:132-283 | every lease returns payload, attributes, priority, creation time and target as published, to a consumer the target admits, with one more attempt |
| FileSystemRuns.NeverEarly | MainMQ/BackendAdapter/FileSystemAdapter.cpp:147-283 | every file in an inbox is due whenever a call is made, although lease_next never looks at the time |
| FileSystemRuns.LeaseExclusive | MainMQ/BackendAdapter/FileSystemAdapter.cpp:415-451 | between two leases of a message by lease_next there was a nack of it, or the second comes strictly after the expiry of the first as extended; without extensions, after its time plus the visibility |
| FileSystemRuns.BoundedRedelivery | MainMQ/BackendAdapter/FileSystemAdapter.cpp:257-276 | the calls of lease_next that return a message published with attempt 0 are at most max(1, retry limit) under one policy with the DLQ on, without requeue and reprocess of it |
| FileSystemRuns.StaleDelayIff | MainMQ/BackendAdapter/FileSystemAdapter.cpp:767-845 | a delay that reaches a message does what the sweeper may do exactly when its lease is expired |
| FileSystemRuns.StaleBuryIff | MainMQ/BackendAdapter/FileSystemAdapter.cpp:847-900 | a move to the DLQ that reaches a message does what the sweeper may do exactly when its lease is expired |
| FileSystemRuns.DrainingOrder | MainMQ/BackendAdapter/FileSystemAdapter.cpp:190-276 | draining yields exactly the eligible files, each once, in file-name order |
| FileSystemSweep.Sweeper.HandleExpired | MainMQ/QueueManager.cpp:151-187 | one entry of the snapshot as one backend call, with conservation at every file operation |
| FileSystemSweep.Sweeper.RecoverExpiredLeases | MainMQ/QueueManager.cpp:127-199 | conservation under faults; without, every message the sweep reaches ends as its policy says and all others keep life and files |
| FileSystemSweep.SweepIsRunSegment | MainMQ/QueueManager.cpp:127-199 | a whole sweep is a segment of a run: one step per past lease meta, in whatever order, leaves the reached messages swept and all others with their life and files |
| FileSystemSweep.ReleasedBecomeReady | MainMQ/BackendAdapter/FileSystemAdapter.cpp:633-709 | once its delay is over a released message is made ready by the next promotion, with its attempt |
| FileSystemSweep.ReachedIffSpelled | MainMQ/BackendAdapter/FileSystemAdapter.cpp:711-765 | a past lease is reached exactly when its meta still spells the id of the message |
| FileSystemSweep.MisspelledIsNeverSwept | MainMQ/BackendAdapter/FileSystemAdapter.cpp:415-451 | a lease extended under a string without separators is a concrete one that is never swept |
| Mailbox.OthersContinue | MainMQ/MailboxHandler.cpp:234-255 | clients, watcher, cleanup and restarts can continue a run at any point |
| Mailbox.WorkerContinues | MainMQ/MailboxHandler.cpp:257-352 | and so can the worker, by how far it is with its request |
| Mailbox.RestartForgets | MainMQ/MailboxHandler.cpp:62-180 | a restart resets counters and batch, moves no file and forgets no finished request |
| Mailbox.NothingLost | MainMQ/MailboxHandler.cpp:556-613 | in every reachable state, restarts included, each request is in exactly one of requests, processing, dead, removed; a removed one had its handler run |
| Mailbox.AtMostOnce | MainMQ/MailboxHandler.cpp:257-464 | over whole runs with duplicate notifications, listings, polling, cleanup and restarts, two handler calls are for two different requests |
| Mailbox.DeadlinesRespected | MainMQ/MailboxHandler.cpp:318-336 | in every reachable state a handler ran only for a request without deadline or checked no later than it, a request expired only when checked after it, and each is the request its file holds |
| Mailbox.NeverBoth | MainMQ/MailboxHandler.cpp:318-336 | no request has both its handler run and its deadline found passed |
| Mailbox.MetricsBalance | MainMQ/MailboxHandler.cpp:1288-1354 | within one start total equals executed plus expired and success plus error, errors split by kind, timeouts are exactly the expired |
| Mailbox.TallyOne | MainMQ/MailboxHandler.cpp:1288-1354 | one record_request_end keeps every counter equal to the number of finished requests of its kind |
| Mailbox.StepSafe | MainMQ/MailboxHandler.cpp:234-613 | every step of worker, watcher, clients, cleanup and restart keeps all of this |
| MailboxWorker.MailboxHandler.OnFileChanged | MainMQ/MailboxHandler.cpp:234-255 | only additions of .json files are queued |
| MailboxWorker.RequestFilesAre | MainMQ/MailboxHandler.cpp:1125-1151 | a listing takes names that end in .json and have a stem; the watcher takes the bare suffix too |
| MailboxWorker.MailboxHandler.CleanupStale | MainMQ/MailboxHandler.cpp:1054-1072 | one round of that loop: a file leaves processing for dead exactly when its age is known and over the limit; nothing else changes |
| MailboxWorker.MailboxHandler.CleanupStaleRequests | MainMQ/MailboxHandler.cpp:1046-1074 | of the .json files in processing exactly those whose age is known and over the limit end in dead; a file that cannot be moved stays |
| MailboxWorker.MailboxHandler.MoveToProcessing | MainMQ/MailboxHandler.cpp:556-571 | the rename and its failure |
| MailboxWorker.MailboxHandler.MoveToDead | MainMQ/MailboxHandler.cpp:573-601 | the rename and its failure |
| MailboxWorker.MailboxHandler.DeleteProcessed | MainMQ/MailboxHandler.cpp:603-613 | the deletion, also of a file already gone, and its failure |
| MailboxWorker.MailboxHandler.ReadRequestFile | MainMQ/MailboxHandler.cpp:482-496 | a request only from a file that is still there and well formed |
| MailboxWorker.MailboxHandler.ListFiles | MainMQ/MailboxHandler.cpp:1125-1151 | every file with extension .json once, in file-name order |
| MailboxWorker.MailboxHandler.RecordRequestEnd | MainMQ/MailboxHandler.cpp:1288-1354 | counters, processing time and last time change as one finished request asks |
| MailboxWorker.MailboxHandler.HandleRequest | MainMQ/MailboxHandler.cpp:712-739 | an unknown command always fails; no handler answers with the timeout code |
| MailboxWorker.MailboxHandler.ProcessOne | MainMQ/MailboxHandler.cpp:270-351 | each of its file operations is a protocol step under any interference; the request leaves requests and is finished at most once |
| MailboxWorker.MailboxHandler.ProcessPendingRequests | MainMQ/MailboxHandler.cpp:257-352 | every notified request file is gone from requests when the batch is worked off |
| MailboxWorker.MailboxHandler.PollOnce | MainMQ/MailboxHandler.cpp:384-459 | every .json file listed is gone from requests when the batch is worked off |
| MailboxWorker.MailboxHandler.QueueExisting | MainMQ/MailboxHandler.cpp:356-363 | every .json file left in requests is queued at startup |
| Base64.LettersAreTable | CommonLibrary/Utilities/Converter.cpp:103-112 | the letters are those of the encoding table, and the decoding table inverts it and knows no other character |
| Base64.TestVectors | CommonLibrary/Utilities/Converter.cpp:146-186 | the encodings of "f", "fo", "foo" and "foobar" in section 10 of RFC 4648 |
| Base64.ToBase64 | CommonLibrary/Utilities/Converter.cpp:146-186 | the loop over a preset buffer, with every write in bounds, yields the padded encoding of section 4 of RFC 4648 |
| Base64.FromBase64 | CommonLibrary/Utilities/Converter.cpp:96-144 | for every text: the exact bit stream of its letters despite the wrapping 32-bit accumulator, or a refused buffer, or a first write outside the buffer |
| Base64.OverrunIff | CommonLibrary/Utilities/Converter.cpp:114-140 | a write falls outside the buffer exactly when the size is not negative and smaller than the bytes the letters make |
| Base64.ShortTextOverruns | CommonLibrary/Utilities/Converter.cpp:119-139 | two letters without padding: no room, one byte written |
| Base64.AccumulatorIsExact | CommonLibrary/Utilities/Converter.cpp:123-139 | the bits lost to wrap-around are never needed |
| Base64.EncodedShape | CommonLibrary/Utilities/Converter.cpp:155-183 | output length 4*ceil(n/3); letters, then exactly the padding |
| Base64.PaddedGroups | CommonLibrary/Utilities/Converter.cpp:174-183 | overwriting the ends of the zero-filled groups gives the padded encoding |
| Base64.RoundTrip | CommonLibrary/Utilities/Converter.cpp:96-186 | decoding the encoding gives back every byte sequence |
| Base64.EncodedFits | CommonLibrary/Utilities/Converter.cpp:114-120 | the decoder takes every encoding with every write in bounds and gives the data back |
| Base64.WellFormedFits | CommonLibrary/Utilities/Converter.cpp:114-120 | so it does every text of whole quads with at most two padding characters |
| Base64.EncodeInjective | CommonLibrary/Utilities/Converter.cpp:146-186 | different data have different encodings |
| Archive.Append | CommonLibrary/Utilities/Combiner.cpp:8-23 | length in eight bytes, then the source reversed, nothing more for an empty source |
| Archive.ChunkExample | CommonLibrary/Utilities/Combiner.cpp:8-23 | the ten bytes appended for two |
| Archive.Divide | CommonLibrary/Utilities/Combiner.cpp:25-54 | the piece and the new index, on every malformed input and any index; where a sum wraps around and passes the check, the undefined read |
| Archive.DivideChunk | CommonLibrary/Utilities/Combiner.cpp:8-54 | divide undoes append anywhere in a longer buffer, empty chunks included |
| Archive.Pack | CommonLibrary/Utilities/Folder.cpp:170-210 | the loop writes one framed record per file, in order, its length cast to 32 bits |
| Archive.Unpack | CommonLibrary/Utilities/Folder.cpp:240-270 | the loop ends because the index strictly advances, and computes the recursive reading of the bytes |
| Archive.UnpackPacked | CommonLibrary/Utilities/Folder.cpp:187-270 | from any position, unpacking packed small files yields the list in order, but for stripped byte order marks |
| Archive.NotInsideOwnFrame | CommonLibrary/Utilities/Folder.cpp:193-204 | no entry can be read from within its own frame at another place than its beginning |
| Archive.NeverBackInStep | CommonLibrary/Utilities/Folder.cpp:240-270 | once reading is past the frame of the next entry, the packed list never comes out |
| Archive.RoundTripIff | CommonLibrary/Utilities/Converter.cpp:74-94 | for records under 2^32 bytes the round trip holds exactly when no path starts with a byte order mark |
| Archive.RoundTripExactly | CommonLibrary/Utilities/File.cpp:92-108 | for every list the round trip holds exactly when every record is under 2^32 bytes and no path starts with a byte order mark |

## Left out

- Archive.Divide: where a wrapping sum makes the source read outside its buffer, its behaviour is undefined; the model
  answers None there and goes no further.
- Archive.RoundTripExactly: for archives a vector can hold.
- Hybrid.HybridAdapter.CheckConsistency: which archived files are past their retention period is a parameter, since file
  clocks decide it.
- MailboxWorker.MailboxHandler.HandleRequest: the handlers' work on the backend is not part of the mailbox; any answer the
  handlers can give is allowed.
- DLQ reason columns, DLQ listing and its order, policies saved in Hybrid and FileSystem, `metrics` of the SQL backends.
- Lease ids: generated but never compared by any backend.
- The SQLite engine, SQL text and quoting, pragmas, busy timeouts; JSON text; fsync, short writes, temporary files.
- Response files and their cleanup, message validation, thread pool and jobs, folder watcher, logging, LZ4 compression,
  configuration loading, command line programs.
