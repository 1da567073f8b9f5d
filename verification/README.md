# Verified model of smart-http-requester

The service accepts HTTP-request tasks, stores them in PostgreSQL, publishes them to RabbitMQ for
workers, limits each client with a Redis script and authenticates with opaque tokens. This project
models those four stateful parts and the metric-label normaliser, and proves what holds of them in
every run, for every interleaving, or for every input.

| file | content |
|---|---|
| `SlidingLog.dfy` | the limiter's reference: one client's log of admission times, and how far it can exceed the limit |
| `KeyText.dfy`, `RateLimiter.dfy` | Redis counters with expiry, the Lua script over real numbers, the middleware, and their agreement with the reference in every run |
| `TaskStore.dfy`, `TaskService.dfy` | SQL statements in a transaction, the notify trigger, and each task request on its own, with commit and rollback |
| `TaskProtocol.dfy`, `TaskInvariant.dfy`, `TaskTheorems.dfy`, `TaskOwners.dfy` | all task requests interleaved, failing and crashing anywhere: the invariant and its consequences, and whose a task is |
| `TokenStore.dfy`, `TokenProtocol.dfy` | the token table, and login, refresh and logout over time, interleaved |
| `RabbitTopology.dfy`, `RetryFlow.dfy` | declarations at start-up and routing; messages moving through the delay queues |
| `EndpointName.dfy` | the two substitution passes of the metric label |
| `Runs.dfy`, `Wrappers.dfy` | runs of a state machine; optional values |

`dafny verify dfyconfig.toml` checks the whole project. Nothing was executed.

## Main results

* **Rate limiter.** In every run with any number of clients, each answer of the script equals that
  of a limiter that only remembers the asking client's own admission times: key expiry, key text
  and other clients never show. The largest number of requests any client can ever get into one
  window is computed exactly: twice the limit less the whole part of twice the limit over the
  window length, for windows of two seconds and more. As deployed, with 100 requests a minute, it
  is 197, and a client can reach it. A window that ends on a bucket edge holds at most the limit.
* **Tasks.** Under every interleaving, publish failure and crash: a committed row past `BEFORE RMQ`
  has been published exactly once; a message without a row comes from a batch in flight or
  aborted; batches commit all or none; replaying the notifications gives the committed statuses;
  statuses only rise. This service leaves a `BEFORE RMQ` row at that status forever exactly when
  the request that created it has died; its message is then never published exactly when it had
  not been by then. A row belongs to the user it was created for, in every run. A cancel or update
  that gets to its end succeeds exactly if its SELECT saw a pending task of its own user, whatever
  the others do, and hits a pending task exactly when no other cancel committed before it wrote.
* **Tokens.** A token once removed or replaced authenticates no one in any continuation. An expired
  row can never change again exactly when no request authorized earlier is still under way; its
  owner is then locked out.
* **Retry queues.** Start-up succeeds exactly on a compatible broker and converges from any
  interrupted attempt, and adds the same routes to whatever the broker held. A rejected message is
  lost exactly when nobody had bound its key beforehand. On every broker whose other bindings leave
  the keys in use alone, every published message is in exactly one place or lost that way, and
  expiring heads moves exactly the overdue messages on, in order.
* **Metric labels.** No label carries a UUID. A path segment is replaced exactly when it is numeric,
  lies between slashes and its left neighbour was not replaced. A label is its own label exactly
  when no two numeric segments stood side by side.

## Where the code and its documentation differ

The model follows the code.

* ADR-004 promises exact timestamps and no bursts at window boundaries. The script keeps two
  counters. The limit can be exceeded within a window exactly when windows last three seconds or
  more (`SlidingLog.LimitExceededIff`), by exactly as much as `SlidingLog.LargestWindowIsExact`
  says; as deployed 197 requests fit into a minute (`RateLimiter.DeployedTraffic`).
* ADR-005 describes a chain of delay queues. The code builds a star
  (`RabbitTopology.DelayQueuesFormAStar`), and never binds the dead-letter key of the task queue:
  a message rejected there is dropped unless somebody else bound the key
  (`RabbitTopology.RejectedTasksAreLostIff`), and waits a second as the key suggests exactly if
  they bound it to that delay queue alone (`RabbitTopology.RejectedTasksWaitIff`).
* `cancel_request_task` says it removes the task from the processing queue. It never touches the
  queue (`TaskTheorems.MessagesNeverWithdrawn`).
* The update and cancel endpoints say only pending tasks can be updated or canceled. An update
  whose SELECT saw `pending` rewrites the row even if a cancel committed meanwhile
  (`TaskTheorems.UpdateStraddlesCancel`, exactly then: `TaskTheorems.UpdateHitsPendingIff`), and a
  cancel succeeds on a task that was canceled meanwhile (`TaskTheorems.CancelHitsPendingIff`).
* `authorization` answers 401 or 403. For a user without a role it compares a missing privilege
  with a number, which raises (`TokenStore.Authorize`).
* The batch path hands the parsed URL object to the INSERT as text, where the single path converts
  it first (repository/task.py:89, domain/tasks.py:54). The driver that may refuse it is not part
  of this model, which takes the URL as text on both paths.
* `get_endpoint_name` says it replaces numeric ids. It skips a last segment and every second one of
  a run (`EndpointName.NumericPassBySegments`, `EndpointName.RunsAlternate`).

## Assumptions

* Limiter: one clock for the script's `now` and for key expiry, never running backwards; the window
  is at least one second.
* Database: statements read committed rows and their own transaction's; a row written by an open
  transaction blocks another writer, which then works on the committed version. UUIDs are fresh.
* A publish may be accepted although its caller sees a failure.
* AMQP 0-9-1, section 3.1.3.1: a direct exchange delivers by equality of routing and binding key.
  Messages expire at the head of a queue only.

## Model

| member | source | states |
|---|---|---|
| SlidingLog.ReplyCountsTheCall | services/redis_service.py:65-79 | a call is admitted iff the weighted total before it is below the limit; the total answered is the weighted total after it, rounded down, so an admitted call counts itself; the reset time is the next bucket edge, on both branches |
| SlidingLog.TotalBelow | services/redis_service.py:57-79 | at any time not before the last admission the weighted total is below limit + 1, and both counters are at most the limit |
| SlidingLog.SlidingBound | services/redis_service.py:57-79 | for the window ending at any time, past or present: admitted count times w is below (limit + 1) times w plus the previous bucket's count times the elapsed seconds |
| SlidingLog.WindowAtMostTwice | services/redis_service.py:57-79 | no window holds more than twice the limit; a window ending on a bucket edge at most the limit |
| SlidingLog.LargestWindowIsExact | services/redis_service.py:57-79 | for every limit and window length: no window of any producible log holds more than `LargestWindow`, and some window of some log holds that many |
| SlidingLog.LimitExceededIff | services/redis_service.py:57-79 | some producible log exceeds the limit in some window iff windows last at least three seconds |
| SlidingLog.DoublingIff | services/redis_service.py:57-79 | some producible log puts twice the limit into one window iff the window is longer than twice the limit |
| SlidingLog.ExactComparison | services/redis_service.py:62-79 | the script admits iff its slack is positive, an exact sliding log iff the slack exceeds the tail's excess over its charged share; so each one-sided error has the corresponding sign of the excess |
| SlidingLog.LimitKeptIff | services/redis_service.py:62-79 | a producible log stays within the limit in every window iff at each admission the tail's excess over its charged share was below the script's slack |
| SlidingLog.FairTailsKeepLimit | services/redis_service.py:62-79 | if the tail never exceeds its share at an admission, no window ever exceeds the limit |
| SlidingLog.DenialJustified | services/redis_service.py:57-72 | a denied client had at least the limit admitted since the start of the previous bucket |
| SlidingLog.BoundedWait | services/redis_service.py:57-79 | a denied client is admitted at any time after its reset time; at the reset second iff its old bucket's count was below the limit |
| KeyText.CounterKeyInjective | services/redis_service.py:59-60 | the key text determines client and bucket, whatever colons the client text holds |
| KeyText.IntReadsBack | middleware/rate_limit.py:30-31 | the text of a number reads back as that number |
| KeyText.ClockReadsBack | middleware/rate_limit.py:32-34 | the reset header reads back as hours, minutes and seconds of the day, separated by colons |
| KeyText.ClockTextSameIff | middleware/rate_limit.py:32-34 | two reset times read the same in the header iff they are whole days apart |
| RateLimiter.Redis.Incr | services/redis_service.py:74 | the next read gives one more; a live key keeps its expiry, a new one has none; no other key changes |
| RateLimiter.Redis.Expire | services/redis_service.py:75-76 | the count stays and the key is alive at exactly the times before now + seconds; a key not alive is left alone, as is every other key |
| RateLimiter.ReadsAreExact | services/redis_service.py:62-63 | the two counters a call reads are the log's counts of the current and the previous bucket, expiry or not |
| RateLimiter.RealDecision | services/redis_service.py:65-79 | the script's comparison and truncation over real numbers are the scaled integer ones |
| RateLimiter.RunScript | services/redis_service.py:52-79 | the script in its real arithmetic ends in the specified store and reply |
| RateLimiter.ScriptAnswers | services/redis_service.py:59-79 | on any store: admitted iff the weighted total of the two counters is below the limit; the total answered is that of the counters after the call, rounded down; a denied call changes nothing; the reset time is the next bucket edge |
| RateLimiter.CheckRateLimit | services/redis_service.py:85-91 | one call: the specified store and reply, with the answer as above |
| RateLimiter.HeadersTell | middleware/rate_limit.py:30-34 | the header texts read back as the limit, the limit less the total, and the local time of day of the reset |
| RateLimiter.Dispatch | middleware/rate_limit.py:12-35 | no client address: 423, nothing counted; otherwise the application is called iff the script admits, else 429, with the limit headers as text on both branches; no response if the application raises, though the request was counted |
| RateLimiter.AnswersMatchReference | services/redis_service.py:57-79 | in every run every answer equals the log limiter's on that client's own calls: expiry and other clients are invisible |
| RateLimiter.RunLogsValid | services/redis_service.py:57-79 | the admission times of every client in every run form a valid log |
| RateLimiter.ValidIffProduced | services/redis_service.py:57-79 | the valid logs are exactly the logs that runs produce |
| RateLimiter.RemainingNeverNegative | middleware/rate_limit.py:20-31 | the returned total lies between 0 and the limit on both branches, so X-RateLimit-Remaining never shows a minus sign |
| RateLimiter.AdmittedTrafficBounded | services/redis_service.py:57-79 | for every client in every run: no window holds more than `LargestWindow`, which is at most twice the limit, nor more than the limit if it ends on a bucket edge |
| RateLimiter.DeployedTraffic | middleware/rate_limit.py:20-22 | with the default limit of 100 and the minute's window, no run gets more than 197 requests of a client into a minute, and some run does |
| RateLimiter.DeniedThenAdmitted | services/redis_service.py:69-79 | across any calls in between that admit nothing of the client, a denied client is admitted after its reset time, and at the reset second iff its old bucket had room |
| RateLimiter.FourLiveKeys | services/redis_service.py:59-76 | at any time a client's live keys are among those of the current and the three previous buckets |
| RateLimiter.IdleClientForgotten | services/redis_service.py:75-76 | two windows after its last admission a client has no live key |
| TaskStore.InsertAllFresh | repository/task.py:71-113 | a batch of fresh ids writes exactly one pending row and queues one INSERT notification per task, in order |
| TaskStore.Database.CreateTask | repository/task.py:19-49 | one uncommitted row: the user's, with the task's content and number of attempts, the given status and no attempts made |
| TaskStore.Database.CreateTasksBatch | repository/task.py:71-113 | the loop over the tasks builds the batch's transaction and its messages; each row is the user's, pending, with its task's content and number of attempts and none made |
| TaskStore.Database.CancelTask | repository/task.py:135-184 | writes only if the status read was pending; returns the row after the write with the owner and status read before it |
| TaskStore.Database.UpdateTask | repository/task.py:186-253 | writes the content whatever the status; returns the row after the write with the owner and status read before it |
| TaskStore.Database.ConfirmRmqTask | repository/task.py:255-263 | moves BEFORE RMQ to pending, leaves any other status, and commits |
| TaskStore.Database.Commit | services/database.py:45-48 | the transaction's rows become visible and its notifications are delivered |
| TaskStore.Database.Rollback | services/database.py:49-52 | the transaction leaves no trace |
| TaskService.CloseSession | services/database.py:42-55 | commit on normal exit, rollback on an exception |
| TaskService.RabbitMq.PublishTask | services/rabbitmq.py:90-108 | appends the message unless it is lost; reports success only if accepted |
| TaskService.CreateRequestTask | domain/tasks.py:32-72 | the row field by field, notifications and messages for each outcome of the publish: pending after success, BEFORE RMQ after a failure whether or not the message got through |
| TaskService.CreateRequestTasksBatch | domain/tasks.py:75-103 | succeeds iff there are tasks and every publish is accepted: then all rows, field by field, and all messages in order; else none of the rows and exactly the messages before (or at) the first failing publish; the empty batch is refused |
| TaskService.CancelRequestTask | domain/tasks.py:165-206 | write-then-check with rollback equals check-then-write: the row is canceled iff it exists, is the caller's and is pending, else not found, access denied or invalid status, in that order, and nothing changes |
| TaskService.UpdateRequestTask | domain/tasks.py:209-256 | the same for updates, which change only the content and notify no one |
| TaskInvariant.CommitOneRow | migrations/0003_task_notify_trigger.sql:6-25 | committing a row with what the trigger queued keeps the replayed notifications equal to the statuses, and rising |
| TaskInvariant.CommitBatchRows | migrations/0003_task_notify_trigger.sql:6-25 | the same for a whole batch |
| TaskInvariant.StepKeepsInv | domain/tasks.py:32-256 | every statement, commit, publish, failure and crash of any request keeps the protocol invariant |
| TaskInvariant.RunKeepsInv | domain/tasks.py:32-256 | the invariant holds after every run |
| TaskTheorems.PublishedExactlyOnce | domain/tasks.py:52-103 | no task is published twice; a committed row past BEFORE RMQ exactly once, with its number of attempts |
| TaskTheorems.DanglingOnlyFromBatches | domain/tasks.py:90-97 | a message without a committed row belongs to a batch still publishing or aborted |
| TaskTheorems.BatchAllOrNone | domain/tasks.py:90-103 | the tasks of one batch are committed all or none |
| TaskTheorems.BeforeRmqMeaning | domain/tasks.py:52-69 | a BEFORE RMQ row comes from the single path; while its creator lives it is published iff the creator is past its publish |
| TaskTheorems.ListenerIsExact | migrations/0003_task_notify_trigger.sql:6-25 | in every reachable state replaying the notifications gives the committed statuses, and each task's statuses are heard strictly rising |
| TaskTheorems.CanceledAnnouncedOnce | migrations/0003_task_notify_trigger.sql:6-24 | a canceled task was announced as canceled exactly once, any other never, however many cancels race |
| TaskTheorems.RowStep | repository/task.py:143-169 | one step never loses a row or its owner, moves its status by at most one; a pending row is canceled exactly by the commit of a cancel of its owner's that saw it pending, a BEFORE RMQ row leaves only by its creator's confirm |
| TaskTheorems.OnlyOwnersChangeRows | domain/tasks.py:188-256 | a row that a cancel's or update's last step changes belongs to the user of that request |
| TaskTheorems.SucceedsIff | domain/tasks.py:188-256 | with any steps of others after its SELECT and after its write, a cancel or update that gets to its end succeeds iff its SELECT saw a pending task of its user; else it is rolled back and changes nothing |
| TaskTheorems.MissingTask | domain/tasks.py:190-193 | of a task that is not there it ends at once and changes nothing |
| TaskOwners.CreatorOwns | repository/task.py:19-49 | in every continuation the row of a task created on the single path is its user's, with its number of attempts and none made |
| TaskOwners.BatchCreatorOwns | repository/task.py:71-113 | so is every task of a batch |
| TaskOwners.CreatorCanCancel | domain/tasks.py:165-206 | the user it was created for can cancel a pending task when no other request is in the way |
| TaskTheorems.StatusOnlyForward | repository/task.py:143-263 | along any run the status only moves forward and canceled is for good |
| TaskTheorems.UpdateOnlyContent | repository/task.py:215-228 | an update's commit changes the content of at most its one row, only for the row's owner and if its SELECT saw it pending, and notifies and publishes nothing |
| TaskTheorems.MessagesNeverWithdrawn | domain/tasks.py:165-206 | the published messages only ever grow; canceling takes none back |
| TaskTheorems.StuckForeverIff | domain/tasks.py:52-69 | a committed BEFORE RMQ row keeps that status in every continuation iff the request that created it has died |
| TaskTheorems.LostForeverIff | domain/tasks.py:52-69 | such a row also never has its message published iff its request has died and the message was not published before |
| TaskTheorems.PendingUntilCanceled | repository/task.py:159-169 | over any run a pending row ends canceled iff a cancel of it committed, else pending |
| TaskTheorems.UpdateHitsPendingIff | repository/task.py:198-228 | with any steps of others after its SELECT and after its UPDATE: an update that saw its own task pending and reaches its end commits its content; the row is then pending iff no cancel of it committed between the SELECT and the UPDATE |
| TaskTheorems.CancelHitsPendingIff | repository/task.py:143-169 | likewise a cancel that saw its own task pending and reaches its end succeeds and leaves it canceled; it finds the row pending, and is announced, iff no other cancel of it committed between its SELECT and its UPDATE |
| TaskTheorems.UpdateStraddlesCancel | repository/task.py:198-228 | for every unlocked pending task there is an interleaving in which an update succeeds on the canceled row |
| TaskTheorems.Statements | repository/task.py:159-263 | on a committed row: cancel writes the status whatever it was, update the content, confirm only a BEFORE RMQ row |
| TaskTheorems.SerialCreate | domain/tasks.py:32-72 | uninterrupted, the five steps of the single path leave a pending row of the user's with no attempts made, one message and two notifications |
| TaskTheorems.SerialCancel | domain/tasks.py:188-206 | uninterrupted, the three steps of a cancel change the row iff it is the user's and pending, and else abort |
| TaskTheorems.SerialUpdate | domain/tasks.py:234-256 | uninterrupted, the three steps of an update change the row iff it is the user's and pending, and else abort |
| TokenStore.Tokens.GetAccessToken | migrations/0002_token_and_roles.sql:9-23 | returns the existing token unchanged, or a new one that authenticates its user at exactly the times before now + 604800; it authenticates now iff the row was absent or unexpired |
| TokenStore.Tokens.DeleteToken | repository/auth.py:61-72 | removes exactly the user's row and says whether there was one |
| TokenStore.Tokens.RefreshUserToken | repository/auth.py:91-104 | replaces the row of a user that has one by a new token that authenticates at exactly the times before now + 604800, and nothing otherwise |
| TokenStore.Tokens.GetUserByToken | repository/auth.py:74-89 | finds a user iff some row holds the token with its time not over, and then such a user |
| TokenStore.Authorize | middleware/auth.py:25-48 | 401 iff the text is no UUID or authenticates no one; 403 only for a holder with too few privileges; an unhandled exception only for a holder without a role; otherwise that holder |
| TokenProtocol.StepKeepsInv | repository/auth.py:48-104 | tokens are unique among rows, were issued, and expire within a week of now |
| TokenProtocol.IssuedForAWeek | migrations/0002_token_and_roles.sql:16-20 | a login that creates the row and a refresh issue a token that authenticates at exactly the times within a week of their transaction's start |
| TokenProtocol.TokenHasOneOwner | repository/auth.py:74-89 | in every run a live token resolves to one user and lives at most a week from now |
| TokenProtocol.RevocationIsPermanent | repository/auth.py:61-104 | after a logout or refresh the user's former token authenticates no one in any continuation |
| TokenProtocol.ExpiredLockedInIff | repository/auth.py:48-104 | an expired row stays as it is in every continuation iff no request authorized earlier is still under way |
| TokenProtocol.ExpiredUserLockedOut | migrations/0002_token_and_roles.sql:16-21 | from then on every login answers the dead token and no token resolves to the user |
| TokenProtocol.RacingLogins | migrations/0002_token_and_roles.sql:16-20 | of two logins that both found no row the second insert is refused and the first token stands |
| RabbitTopology.Channel.Do | services/rabbitmq.py:54-80 | one declaration or binding, refused if it contradicts what exists, after which the channel does nothing more |
| RabbitTopology.Setup | services/rabbitmq.py:47-82 | the start-up loop asks for exactly the listed operations, in order; if none is refused, both exchanges, the task queue and the seven delay queues are declared and bound under their names, with time to live 1000, 2000, ... 64000 |
| RabbitTopology.SetupCompletes | services/rabbitmq.py:47-82 | start-up succeeds iff nothing already declared under its names differs, and then adds exactly the target |
| RabbitTopology.SetupConverges | services/rabbitmq.py:47-82 | cut short after any number of operations it leaves a partly built topology, which the next full run completes |
| RabbitTopology.SetupIdempotent | services/rabbitmq.py:47-82 | on a finished topology it changes nothing |
| RabbitTopology.Routes | services/rabbitmq.py:68-80 | on any broker start-up adds exactly these routes: the task queue on both exchanges, each delay queue under its name on the dead-letter exchange |
| RabbitTopology.DelayQueuesFormAStar | services/rabbitmq.py:71-80 | on any broker the delay queue of each level has a time to live of a second doubled level by level, and dead-letters to the task queue; to it alone iff nothing else was bound to that key before |
| RabbitTopology.RejectedTasksAreLostIff | services/rabbitmq.py:61-69 | a message rejected on the task queue goes nowhere iff its key was bound to nothing before start-up |
| RabbitTopology.RejectedTasksWaitIff | services/rabbitmq.py:61-80 | it goes to the one-second queue alone iff its key was bound to exactly that queue before start-up |
| RetryFlow.NoHeadOfLineBlockingIff | services/rabbitmq.py:18-26 | head-only expiry removes exactly the overdue messages at every instant iff deadlines ascend along the queue |
| RetryFlow.StepKeepsInv | services/rabbitmq.py:71-102 | publishes, worker actions and expiries keep queues in order of arrival and the message books balanced |
| RetryFlow.MessagesConserved | services/rabbitmq.py:71-102 | in every run the published messages are exactly those queued, held, done or lost; lost are all the rejected ones if their key was bound to nothing, else none |
| RetryFlow.ConservedOnNewBroker | services/rabbitmq.py:47-102 | on a broker that held nothing else the published messages are exactly those queued, held, done or rejected |
| RetryFlow.RejectedMessage | services/rabbitmq.py:61-66 | a rejected message goes to the end of the queue its key was bound to before start-up, and is lost if there was none |
| RetryFlow.TasksFirstInFirstOut | services/rabbitmq.py:95-102 | a published task goes to the end of the task queue, and workers take its head |
| RetryFlow.RetriedMessage | services/rabbitmq.py:71-80 | a retried message goes to the end of the delay queue of its level |
| RetryFlow.ExpiryReturnsToTaskQueue | services/rabbitmq.py:71-80 | the head of a delay queue expires exactly when it has waited the delay of its level, and moves to the end of the task queue, nothing else |
| RetryFlow.DelaysNeverBlock | services/rabbitmq.py:71-80 | in every run and delay queue, expiring the head until it is not due moves all overdue messages to the task queue in order, only those, and leaves what expiry from any place would leave |
| RetryFlow.NobodyOverstays | services/rabbitmq.py:18-26 | once a delay queue's head is not due, none of its messages is |
| EndpointName.SubKeepsTheRest | services/metrics.py:58-65 | a pass cuts the text into kept characters and leftmost matches, and renders the kept characters in order |
| EndpointName.LeftmostUnique | services/metrics.py:58-65 | there is only one leftmost non-overlapping cut |
| EndpointName.UuidBecomesId | services/metrics.py:58-63 | groups of 8, 4, 4, 4 and 12 hexadecimal digits of either case, joined by dashes, become `{id}` |
| EndpointName.UuidInAnyCase | services/metrics.py:58-63 | a text matches iff its lower-case form does |
| EndpointName.NumberBecomesId | services/metrics.py:65 | a numeric segment between slashes becomes `{id}`, using up both slashes |
| EndpointName.NoUuidLeft | services/metrics.py:58-63 | after the first pass no UUID occurs in any letter case |
| EndpointName.NumericPassKeepsUuidFree | services/metrics.py:65 | the second pass creates none |
| EndpointName.LabelsCarryNoUuid | services/metrics.py:53-66 | no label carries a UUID, for every path |
| EndpointName.NumericPassBySegments | services/metrics.py:65 | on every path the second pass replaces exactly the numeric segments between slashes whose left neighbour was not replaced |
| EndpointName.RunsAlternate | services/metrics.py:65 | in a run of numeric segments the 1st, 3rd, 5th and so on are replaced |
| EndpointName.SplitOfJoin | services/metrics.py:65 | cutting at slashes undoes joining with slashes, for every list of segments |
| EndpointName.NumericPassStableIff | services/metrics.py:65 | on every text the second pass, repeated, changes nothing iff no two numeric segments between slashes are neighbours |
| EndpointName.NormalisingIsStableIff | services/metrics.py:53-66 | the label of a label is itself iff, after the UUID pass, no two numeric segments of the path between slashes are neighbours |

## Left out

- RateLimiter.RunScript: computes with exact real numbers, so rounding of Lua's doubles is not modelled, nor is their text form for bucket numbers of 15 digits and more; clocks running backwards between replicas are excluded.
- RateLimiter.Dispatch: an unreachable Redis is not modelled.
- TaskStore.Database.CreateTasksBatch: takes the URL as text; see the differences above.
- TaskStore.Database.UpdateTask: does not model the Redis publish when the status changed under the update, nor timestamps, which no decision reads.
- TaskService.CreateRequestTask: a failing commit is covered by the interleaved model's failures, not by this method.
- TokenStore.Authorize: takes the parsed token and the privileges as values; parsing UUID text is not modelled.
- TokenProtocol.RevocationIsPermanent: users are never deleted, so the cascade from users to tokens does not occur.
- RetryFlow.MessagesConserved: brokers on which others bind further queues to the keys in use, which would copy messages, are left out, as is what others do with queues of their own.
- RetryFlow.StepKeepsInv: workers are not in the repository; they appear as free choices between acknowledging, republishing to a delay queue and rejecting, each in one step.
- Workers changing task statuses, result rows and retry levels.
- Connection caching, start-up and shutdown of clients, logging, Prometheus counters, Docker and Grafana files.
- Password hashing and registration; a login step stands for one whose password was right.
- Pagination and plain reads of tasks: ordinary list slicing with an order that leaves ties open.
- WebSocket helpers in api/v1/requests.py, which nothing uses.
- `publish_task` declares the main exchange again before publishing; as an existing identical declaration this changes nothing and is not repeated in the model.
