# A verified model of the school REST API's protocols

The service keeps its state in four outside systems (Redis, a MariaDB primary with an asynchronous
replica, RabbitMQ and S3) and any number of application instances work on it at the same time. This
project models the code that talks to these systems and proves what it guarantees over whole runs.

Each protocol is a step machine: a `State`, an `Event` datatype, `Enabled` and `Next`. A run is any
sequence of enabled events. Steps of different actors interleave freely, and there are events for the
crashes, lost connections and lost answers of each protocol: an INCR or EXPIRE that takes effect after it was
reported as failed, a reader or writer that dies half-way, a handler that outlives its channel, a declaration
whose reply is lost, a delete that stops at any of its steps. `Init` is the system at start (any rows for the
lists, any rows without photos for the photos, empty otherwise), and `Reachable` means reached by some run.
Bookkeeping fields about the past (for example `tally`, `stories`, `origins`, `issued`, `resets`) never
influence the program's own fields. Where a guarantee needs the callers to keep an order, the machine also has
`Orderly` steps and `OrderlyReachable` states, and a witness lemma gives a reachable state in which the
guarantee is broken without that order. `FreshReachable` states of the reset tokens are those reached in any order
with random bytes that do not repeat.

The code itself is modelled in its imperative form: classes whose methods change the rows, keys,
queues and counters, loops with invariants, and `ensures` clauses that tie the new state to the steps
of the machine or to a specification function whose meaning is proved.

| file | what it holds |
|---|---|
| `Strings.dfy` | decimal text, `strconv.Atoi`, composed keys have one reading |
| `RateLimiter.dfy`, `RateLimitHandler.dfy` | the fixed-window limiter shared through Redis (429 is section 4 of RFC 6585, Retry-After section 10.2.3 of RFC 9110), and its handler |
| `Tables.dfy` | rows of the three tables, and what the list queries can see of them |
| `ListCache.dfy`, `CacheClient.dfy`, `WriteHandlers.dfy` | cached lists over a lagging replica, the cache helper, and the handlers that write and then invalidate |
| `WorkQueue.dfy`, `QueueProcesses.dfy` | publisher, broker and workers (acknowledgement is section 1.8.3 of the AMQP 0-9-1 reference; confirms, nack and dead-lettering are RabbitMQ extensions), and the code on both ends |
| `BatchPatch.dfy`, `Repository.dfy` | batch and single PATCH, batch delete, batch insert; students, teachers and execs are one machine with three schemas |
| `QueryText.dfy`, `InsertText.dfy` | the SQL text builders, judged by independent readers of the text they build |
| `ResetToken.dfy`, `PasswordReset.dfy` | password-reset tokens and their handlers (hex is section 8 of RFC 4648) |
| `PhotoLifecycle.dfy`, `PhotoHandlers.dfy` | photo keys and objects, and the confirm, get and delete handlers |
| `Sanitizer.dfy` | the in-place walk over a decoded JSON body |

`dafny verify dfyconfig.toml` checks everything.

## What is assumed

- Time is an integer. The limiter's instances and Redis share one clock; INCR, EXPIRE, GET, SET, SCAN
  answers and DEL are atomic; Redis evicts nothing before its TTL. EXPIRE works in whole seconds, so
  windows are at least one second.
- SCAN returns every matching key that was there unchanged from its start to its end, and only keys
  that match.
- The replica shows some past state of the primary and only moves forward. A transaction of the
  batch writes is not interleaved with other transactions on the same rows; a statement or commit
  that reports an error applied nothing.
- The default exchange stores a message when the named queue exists and confirms it in either case.
- Argon2, SHA-256, the text sanitizer, the SQL engine of the list queries, column collations and
  cache loaders are function parameters; only SHA-256 is assumed to be collision-free. Random token bytes
  do not repeat.
- The broker may lose a channel while its worker still has a delivery to handle, a handler running or a
  settlement to send; the worker goes on until it settles or asks for the next delivery.
- S3 keeps an object from its PUT to its DELETE; a photo delete counts as lasting until S3 has resolved its
  request. Auto-increment ids run ahead of all ids in use.
- The columns that a PATCH reads are NOT NULL (000001_initial.up.sql:12-44 of the migrations); where one is missing
  anyway, nothing is promised about it unless the last body names it.
- Ints of the source are unbounded here, except where text is parsed into a 64-bit int.

## Where the code and its comments disagree

The model follows the code in all of these.

- A failed EXPIRE is said to let a key live "slightly longer". A counter without a TTL stays alive for ever, in
  the same life, exactly as long as no EXPIRE for its key takes effect (`RateLimiter.WithoutExpireForeverIff`); the
  life of one with a TTL lasts exactly one window from its last effective EXPIRE
  (`RateLimiter.LifeEndsAfterExpire`). Both can outlive the window after the first request
  (`RateLimiter.CounterOutlivesWindow`). The cap does not suffer, because the key names its bucket.
- `mandatory` is set so that an unroutable publish fails, but nothing listens to returned messages, so it is
  confirmed like any other (`WorkQueue.UndeclaredLosesMessage`).
- A nil error from the batch PATCH does not mean that it was applied: a value that cannot be converted
  rolls back and returns nil, and the handler answers 204 (`Repository.NumberAsNameDrops`; the exact condition is
  `DropsAt` in `Repository.Primary.PatchMany`).
- The single PATCH of an exec blanks role and inactive status and always sets the creation time to NULL
  (`Repository.ExecPatchNeverExact`); an `id` in the body of any single PATCH redirects the UPDATE to
  another row (`Repository.PatchedOneIsPatchIff`).
- A failed COUNT is served and cached as a total of 0, which is wrong exactly when there are students
  (`ListCache.CachedTotal`, `ListCache.FailedCountIsCached`).
- Confirming the photo key that a row already holds is reported as "student not found"
  (`PhotoHandlers.ConfirmIsReported`), because an unchanged row counts as not affected.
- A reset is answered with nil whenever its UPDATE statement works, and has set a password exactly when the exec
  still exists; an exec deleted in between shows the difference (`ResetToken.NilMeansResetIff`,
  `ResetToken.NilForDeletedExec`).

## Model

| member | source | states |
|---|---|---|
| RateLimiter.KeyInjective | internal/api/middlewares/rate_limiter_redis.go:47-47 | the counter key names one limiter, IP and bucket, even for IPs with colons |
| RateLimiter.TtlReachesEnd | internal/api/middlewares/rate_limiter_redis.go:64-70 | a TTL set at count 1 cannot end before the bucket does |
| RateLimiter.RetryAfterReachesNextBucket | internal/api/middlewares/rate_limiter_redis.go:80-86 | Retry-After is between 1 and the window, ends on the next bucket's first second, and agrees with X-RateLimit-Reset exactly when the decision falls in the counted bucket |
| RateLimiter.NextKeepsInv | internal/api/middlewares/rate_limiter_redis.go:46-90 | every step of every request, late INCRs and EXPIREs included, keeps the counters, landings and TTLs consistent |
| RateLimiter.SharedCap | internal/api/middlewares/rate_limiter_redis.go:46-90 | in every interleaving of any number of instances, the requests passed per name, IP and bucket are at most the limit plus those whose INCR failed or landed after its bucket |
| RateLimiter.SlidingBound | internal/api/middlewares/rate_limiter_redis.go:46-90 | any span of k windows, however aligned, passes at most (k+1) times the limit plus the irregular requests |
| RateLimiter.NoFalseRefusal | internal/api/middlewares/rate_limiter_redis.go:56-88 | behind every refused request stand at least limit other requests of its name, IP and bucket, counted no later |
| RateLimiter.LateIncrExceedsCap | internal/api/middlewares/rate_limiter_redis.go:46-70 | the late-INCR term of the cap is needed: a run without errors passes two requests of one bucket at limit 1 |
| RateLimiter.WithoutExpireForeverIff | internal/api/middlewares/rate_limiter_redis.go:64-70 | over any run, a counter alive without a TTL stays so in the same life, never counting less, iff no EXPIRE for its key takes effect |
| RateLimiter.LifeEndsAfterExpire | internal/api/middlewares/rate_limiter_redis.go:64-70 | after an effective EXPIRE with no later one, that life lasts exactly one window from it, whatever else happens |
| RateLimiter.CounterOutlivesWindow | internal/api/middlewares/rate_limiter_redis.go:64-70 | reachable counters alive after the window of their first request and after their bucket: one whose EXPIRE was lost, one whose EXPIRE came late |
| RateLimitHandler.Service.ServeHTTP | internal/api/middlewares/rate_limiter_redis.go:37-91 | a request served alone takes exactly the machine's steps: it counts one INCR in the key of its name, IP and bucket, gives the key one window to live when it is the first and EXPIRE works, and touches no other key; Remaining is the limit less the earlier INCRs of this life less one and not below 0, Reset the first second of the next bucket, and a Retry-After comes exactly on a refusal, lies in 1..window and ends on that second |
| RateLimitHandler.ServedReachable | internal/api/middlewares/rate_limiter_redis.go:37-91 | so it keeps everything that every run keeps |
| RateLimitHandler.ServedDecision | internal/api/middlewares/rate_limiter_redis.go:56-90 | served alone, a request passes iff its INCR fails or fewer than limit came before it in the life of the key |
| WorkQueue.NextKeepsInv | internal/queue/rabbitmq/consumer.go:50-89 | every declaration, publish, delivery, run, settlement, lost channel and crash keeps each routed message in one place and its story true |
| WorkQueue.TopologySafety | internal/queue/rabbitmq/topology.go:35-73 | in every run the main queue exists only if the failed queue does, both exist once some DeclareTopology returned nil, and no nack loses its message |
| WorkQueue.Conservation | internal/queue/rabbitmq/publisher.go:72-110 | in every reachable state a message whose PublishJSON returned nil is in exactly one place iff it was routed, else nowhere |
| WorkQueue.NothingLost | cmd/api/server.go:70-77 | when publishing starts after some DeclareTopology returned nil, such a message is always in exactly one place, through crashes, panics, lost channels and shutdown |
| WorkQueue.SettlementTruth | internal/queue/rabbitmq/consumer.go:71-89 | some run of an acknowledged message returned nil, some run of a dead-lettered one failed or panicked, and runs number at most 1 plus the losses of a consumer or channel holding the message; without a loss there is one run and it decided |
| WorkQueue.SettledForever | internal/queue/rabbitmq/consumer.go:56-89 | a settled message stays settled and is never delivered again; only deliveries received and taken back before the settlement can still start a run |
| WorkQueue.NoNewRunIff | internal/queue/rabbitmq/consumer.go:56-89 | no continuation starts a run of a settled message iff no worker still has such a delivery to handle |
| WorkQueue.SettledYetHandled | internal/queue/rabbitmq/consumer.go:56-89 | a handler that outlives its channel: an acknowledged message whose last run failed, and one whose run starts after the acknowledgement |
| WorkQueue.OneAtATime | internal/queue/rabbitmq/consumer.go:31-33 | no consumer ever holds two unacked messages |
| WorkQueue.DeliveryFindsIdle | internal/queue/rabbitmq/consumer.go:29-62 | a delivery only ever reaches an idle worker |
| WorkQueue.UndeclaredLosesMessage | internal/queue/rabbitmq/publisher.go:81-109 | without the declaration a publish returns nil for a message that exists nowhere |
| WorkQueue.WorkStepDecreases | internal/queue/rabbitmq/consumer.go:50-65 | each delivery, run, settlement, loss and rejoin lowers a measure weighting losses left, ready messages and workers |
| WorkQueue.WorkIsBounded | internal/queue/rabbitmq/consumer.go:50-65 | with publishing stopped and bounded losses every run of work is bounded by that measure |
| WorkQueue.NoDeadlock | internal/queue/rabbitmq/consumer.go:50-65 | while a message waits or is held, some useful step is possible |
| WorkQueue.QueueDrains | internal/queue/rabbitmq/consumer.go:50-65 | such a run can only stop where the queue is drained, every routed message is settled and no handler runs any more |
| QueueProcesses.Broker.DeclareTopology | internal/queue/rabbitmq/topology.go:35-73 | nil exactly when both declarations were accepted and heard, and then both queues exist; every other way to stop leaves the machine's corresponding state |
| QueueProcesses.DeclareIsSafe | internal/queue/rabbitmq/topology.go:42-70 | wherever it stops, the main queue is created only after the failed queue was confirmed, and never exists without it |
| QueueProcesses.Broker.PublishJSON | internal/queue/rabbitmq/publisher.go:72-110 | nil exactly on a positive confirm and otherwise the error of what went wrong; the message is appended to the main queue iff that exists and the frame arrives, also when it arrives after the timeout; no other queue or settlement changes |
| QueueProcesses.Broker.HandleOne | internal/queue/rabbitmq/consumer.go:71-89 | one run, then ack on nil and nack on an error or a panic; a settlement that fails leaves the message to the broker |
| QueueProcesses.Broker.HandleNext | internal/queue/rabbitmq/consumer.go:56-62 | one turn of the loop: the oldest ready message is taken, run and settled, or ready again when the settlement fails |
| QueueProcesses.Broker.SettleAll | internal/queue/rabbitmq/consumer.go:50-65 | the loop while its settlements arrive: messages in order, each to its end |
| QueueProcesses.Broker.Consume | internal/queue/rabbitmq/consumer.go:50-65 | the loop handles ready messages in order, sends each to the end its outcome names, and returns nil on cancellation and an error on a closed channel |
| QueueProcesses.ProcessedIsSplit | internal/queue/rabbitmq/consumer.go:71-89 | the processed messages are the accepted and the rejected ones, rejected iff some run of theirs failed |
| Tables.HiddenColumnsAreNotListed | internal/repository/sqlconnect/execs_crud.go:27-27 | no list selects, filters or sorts on a column that is written without invalidation |
| Tables.VisibleShows | internal/repository/sqlconnect/students_crud.go:23-50 | a list query sees every row and, of its columns, exactly what they hold |
| Tables.SetColumnsCells | internal/repository/sqlconnect/execs_crud.go:469-470 | an UPDATE reaches the columns that it names, of its row, and nothing else |
| Tables.HiddenWriteKeepsVisible | internal/repository/sqlconnect/execs_crud.go:469-470 | writes to the photo, password and reset-code columns, NULLs included, change nothing that any cached list can show |
| PhotoLifecycle.PhotoWriteIsHidden | internal/repository/sqlconnect/students_photo.go:40-46 | storing and clearing a photo key are such writes |
| Tables.WriteKeepsOtherTables | internal/api/handlers/students.go:433-461 | a write to one table changes no list of another |
| ListCache.CacheKeyInjective | internal/api/handlers/students.go:93-93 | the cache key names one table and one raw query |
| ListCache.PatternMatchesOwnTable | internal/api/handlers/students.go:262-262 | the invalidation pattern of a table matches that table's cached lists and no others |
| ListCache.NextKeepsInv | internal/cache/cache.go:46-131 | every step of readers, writers, replication and expiry keeps each cached list traceable to commits |
| ListCache.BoundedStaleness | internal/cache/cache.go:60-96 | in every run a live entry holds rows of one commit and a total of the same or a later one, put together by a load whose SET is younger than the TTL |
| ListCache.GetServesIff | internal/cache/cache.go:60-76 | in every run a request is served from the cache iff Redis answers and a load of that very list was SET less than TTL ago and not deleted since; otherwise it loads |
| ListCache.ServedIsReadFrom | internal/repository/sqlconnect/students_crud.go:32-60 | whatever a request is served comes from such a load: its own one just now or, on a hit, the one the cache remembers, SET less than TTL ago |
| ListCache.CacheExact | internal/cache/cache.go:115-131 | in orderly runs a live entry outside a commit-to-DEL span equals the same query run on the primary |
| ListCache.ServedIsExact | internal/cache/cache.go:60-96 | so in orderly runs whatever a request is served, from the cache of a table that nobody is writing or from its own load, is what the query returns on the primary at that moment |
| ListCache.DelClearsTable | internal/api/handlers/students.go:433-461 | in orderly runs the DEL after a write leaves no list of that table cached |
| ListCache.DelSparesOtherTables | internal/api/handlers/students.go:433-461 | in every run the DEL touches no other table's lists |
| ListCache.NextKeepsExact | internal/cache/cache.go:46-131 | the step behind exactness: orderly steps keep cached lists fresh or about to be deleted |
| ListCache.OverlapLeavesStale | internal/cache/cache.go:76-96 | the order is needed: a load around a complete write leaves an old total cached |
| ListCache.CachedTotal | internal/repository/sqlconnect/students_crud.go:52-57 | a failed COUNT is cached as a total of 0, which is wrong iff there are students |
| ListCache.FailedCountIsCached | internal/repository/sqlconnect/students_crud.go:52-57 | such a list can be in the cache while the replica is up to date |
| CacheClient.Redis.GetOrFetch | internal/cache/cache.go:46-97 | hit iff connected, GET answered and the key is live and readable; otherwise the loader's value, stored with the TTL unless it failed, could not be encoded or SET failed |
| CacheClient.Redis.Invalidate | internal/cache/cache.go:101-108 | DEL of exactly these keys, nothing on failure |
| CacheClient.Redis.InvalidatePattern | internal/cache/cache.go:115-131 | exactly the matching keys go; a failed SCAN or DEL removes nothing |
| CacheClient.PatternScanIsLegal | internal/cache/cache.go:119-127 | what the loop collects is a legal SCAN answer of the machine |
| CacheClient.ReadTwice | internal/cache/cache.go:59-96 | a list read again before its TTL ends is a hit with the same value |
| WriteHandlers.PrefixGoneIsListsGone | internal/api/handlers/students.go:262-262 | dropping the keys of a table's prefix drops all its cached lists and no other table's |
| WriteHandlers.Api.InvalidateLists | internal/api/handlers/students.go:262-262 | the invalidation call does that, or nothing when Redis fails |
| WriteHandlers.Api.DeleteMany | internal/api/handlers/students.go:452-468 | 200 iff the ids are non-empty, distinct and present and nothing fails, and then exactly these rows are gone and no cached list of the table is left; otherwise 500 and neither rows nor cache change |
| WriteHandlers.Api.PatchOne | internal/api/handlers/students.go:343-351 | 200 iff the repository applied the patch, no answer iff it panicked on a value of the wrong type, else 500; on 200 the row is patched column by column and no cached list of the table is left; otherwise neither rows nor cache change |
| WriteHandlers.Api.PatchMany | internal/api/handlers/students.go:419-428 | for bodies without nulls 204 iff all of them can be applied and nothing fails, or the patch was silently dropped, else 500; the rows change only in the first case, where each is patched column by column by the last body for its id; after a 204, and only then, no cached list of the table is left |
| BatchPatch.BatchMeaning | internal/repository/sqlconnect/students_crud.go:172-234 | a committed batch leaves each row equal to the last patch for its id applied to the row before the batch |
| BatchPatch.BatchLast | internal/repository/sqlconnect/students_crud.go:172-234 | column by column, on any table: the last patch for an id shows, and the columns it does not name hold what they held before the batch, whatever earlier patches of the batch wrote |
| BatchPatch.OneByOneMeaning | internal/repository/sqlconnect/students_crud.go:282-296 | patches sent one request at a time accumulate |
| BatchPatch.BatchIsOneByOneIff | internal/repository/sqlconnect/students_crud.go:172-240 | the two agree on every table iff the last patch for each id sets every column the earlier ones set |
| BatchPatch.DistinctIdsSubsume | internal/repository/sqlconnect/students_crud.go:172-240 | in particular for distinct ids |
| Repository.FillModel | internal/repository/sqlconnect/students_crud.go:203-226 | in any map order the reflection loop succeeds iff every named value fits its field, and then each named field holds the JSON text, or 1 and 0 for true and false, and every other field is what it was |
| Repository.Primary.PatchMany | internal/repository/sqlconnect/students_crud.go:158-242 | applied iff every body is acceptable and nothing fails, and then in every row each column named by the last body for its id holds that body's JSON text and every other column and row is what it was; every other outcome changes nothing; without JSON nulls, a rollback answered with nil iff the first body that cannot be applied has a value of the wrong type |
| Repository.NumberAsNameDrops | internal/repository/sqlconnect/students_crud.go:212-218 | a number for a first name is such a body for an existing student |
| Repository.PatchNumberAsName | internal/repository/sqlconnect/students_crud.go:212-218 | patching with it returns nil and changes nothing |
| Repository.Primary.PatchOne | internal/repository/sqlconnect/students_crud.go:244-303 | applied iff the row exists, all values fit and nothing fails, a panic iff the row exists and a value does not fit; the named columns then hold the JSON texts, read columns keep their values, written ones that are not read get their zero value, and nothing else changes; a numeric id in the body redirects all of this |
| Repository.AcceptedPersons | internal/models/student.go:3-10 | a student or teacher body is accepted iff every column of the model that it names is given a text |
| Repository.AcceptedExecs | internal/models/exec.go:5-19 | an exec body is accepted iff its texts are texts, the status is a boolean, and no timestamp or reset code is named |
| Repository.PatchWritesListedColumns | internal/repository/sqlconnect/execs_crud.go:267-267 | a PATCH writes exactly the columns that the list of its table selects, so it must invalidate; a batch PATCH of execs writes those of them that it reads |
| Repository.PatchedOneIsPatchIff | internal/repository/sqlconnect/students_crud.go:282-296 | a single PATCH is a patch of its row on every table iff the body names no other id and every written column is read or set |
| Repository.PersonPatchIff | internal/repository/sqlconnect/teachers_crud.go:247-308 | for students and teachers: iff the body names no other id |
| Repository.ExecPatchNeverExact | internal/repository/sqlconnect/execs_crud.go:215-274 | for execs: never, because unread columns are written back |
| Repository.Primary.Update | internal/repository/sqlconnect/students_crud.go:296-296 | an UPDATE by id changes the named columns of that row, or nothing when the row is missing; every other row and column stays |
| Repository.Primary.DeleteMany | internal/repository/sqlconnect/students_crud.go:333-393 | succeeds iff ids are non-empty, distinct and present and nothing fails, then returns them unchanged with exactly those rows gone; otherwise the table is as it was |
| Repository.Primary.AddMany | internal/repository/sqlconnect/students_crud.go:86-126 | whatever other requests insert in between, the rows before the first failure are inserted, or all in order with the ids that are answered |
| Repository.AddedRows | internal/repository/sqlconnect/students_crud.go:103-125 | every row stands under the id that it is answered with, ids are new and increase, and no old row is touched |
| Repository.InsertedMeaning | internal/repository/sqlconnect/students_crud.go:103-125 | inserting touches no old row, and row i stands under the i-th new id |
| QueryText.AddSorting | pkg/utils/database_utils.go:47-67 | the query is extended by nothing or by ORDER BY and the accumulated text |
| QueryText.SortingMeaning | pkg/utils/database_utils.go:47-67 | that text parses iff sortby is absent or its first entry is valid, and then lists the valid entries in order |
| QueryText.EntryIff | pkg/utils/database_utils.go:52-57 | an entry is valid iff it is a sortable column, a colon and asc or desc, and then names that column and that direction |
| QueryText.EntriesInOrder | pkg/utils/database_utils.go:50-62 | every valid entry is listed once, in the order of the parameters, and no other |
| QueryText.AddFilters | pkg/utils/database_utils.go:69-85 | text and arguments together select exactly the rows equal to all non-empty parameters among the five |
| QueryText.FilterTextHolds | pkg/utils/database_utils.go:79-82 | the k-th mark takes the k-th argument, so the conditions mean their conjunction |
| QueryText.OrderDoesNotMatter | pkg/utils/database_utils.go:77-83 | every iteration order of the parameter map gives the same selection |
| InsertText.PositionsComplete | pkg/utils/database_utils.go:36-41 | the inserted fields are, in order and once each, those with a tag other than id |
| InsertText.ColumnTexts | pkg/utils/database_utils.go:15-27 | the two accumulated texts are the joined columns and as many marks |
| InsertText.GenerateInsertQuery | pkg/utils/database_utils.go:10-30 | the statement for a model's tags |
| InsertText.GetStructValues | pkg/utils/database_utils.go:32-45 | the values of the inserted fields in order |
| InsertText.InsertReads | pkg/utils/database_utils.go:29-29 | reading the statement gives back table, columns in order and one mark per column, also for no columns at all |
| InsertText.InsertAlignment | pkg/utils/database_utils.go:10-45 | columns, marks and values have one length, and the k-th value belongs to the k-th column's field |
| InsertText.ModelColumns | pkg/utils/database_utils.go:15-27 | a model with an id and other columns inserts exactly those other columns, in order |
| InsertText.ModelStatements | internal/models/exec.go:5-19 | the statements of the three models name all their columns but the id, with one mark each |
| ResetToken.HexRoundTrip | internal/repository/sqlconnect/execs_crud.go:415-439 | decoding the mailed text gives back the token bytes |
| ResetToken.HexDecodeIff | internal/repository/sqlconnect/execs_crud.go:439-442 | a text decodes to some bytes iff it is their two hex digits each, high half first |
| ResetToken.NextKeepsInv | internal/repository/sqlconnect/execs_crud.go:390-476 | orderly steps keep a stored code equal to the newest unused token of its exec |
| ResetToken.PendingIsNewest | internal/repository/sqlconnect/execs_crud.go:452-470 | between SELECT and UPDATE the looked-up token is the newest of its exec, unexpired when looked up, unused |
| ResetToken.LookupSafety | internal/repository/sqlconnect/execs_crud.go:452-470 | in every run, in any order, a reset had looked up a token that was then the newest one of that exec and not expired |
| ResetToken.SpentMatchesNobody | internal/repository/sqlconnect/execs_crud.go:452-470 | in any order of SELECTs and UPDATEs, with fresh bytes, a token whose reset has taken effect finds nobody any more |
| ResetToken.SecondUseIff | internal/repository/sqlconnect/execs_crud.go:452-470 | two resets use one token iff they are of one exec and no token was issued to it between their SELECTs, and then the second's SELECT preceded the first's UPDATE |
| ResetToken.ResetSafety | internal/repository/sqlconnect/execs_crud.go:437-476 | in every orderly run a reset used a token issued to that exec, before expiry, before any newer one was issued, and no token twice |
| ResetToken.MatchesExactly | internal/repository/sqlconnect/execs_crud.go:452-457 | the texts that reset an exec are exactly the hex texts of its newest token while unexpired and unused |
| ResetToken.MatchesOnlyItsExec | internal/repository/sqlconnect/execs_crud.go:452-457 | whatever text matches an exec is that token, so no text matches two execs |
| ResetToken.NewestTokenWorks | internal/repository/sqlconnect/execs_crud.go:437-476 | that token with a non-empty password always completes, changes one exec only, and is spent |
| ResetToken.InterleavedUseIsTwice | internal/repository/sqlconnect/execs_crud.go:452-470 | from any state with a matching token two interleaved requests reset twice with it |
| ResetToken.TokenUsedTwice | internal/repository/sqlconnect/execs_crud.go:452-470 | such a run from the empty system: a reachable state with two resets by one token |
| ResetToken.NilMeansResetIff | internal/repository/sqlconnect/execs_crud.go:469-475 | a reset answered with nil has set the password iff the exec still exists |
| ResetToken.NilForDeletedExec | internal/repository/sqlconnect/execs_crud.go:456-475 | an orderly run answers nil for an exec deleted in between |
| PasswordReset.Primary.PrepareResetToken | internal/repository/sqlconnect/execs_crud.go:390-434 | a token comes back iff a row's email equals the given one under the column's collation and the UPDATE works, and then its hash and expiry are that exec's code |
| PasswordReset.Primary.ResetPassword | internal/repository/sqlconnect/execs_crud.go:437-476 | succeeds iff the text matches, the password is not empty and the UPDATE works; new rows in full |
| PasswordReset.Primary.ForgotPassword | internal/api/handlers/execs.go:513-552 | 400, 503 or 202; on both 503 and 202 the new code is stored, that row's other fields and all other rows are untouched, and no older token of that exec matches any more |
| PasswordReset.Primary.ResetPasswordRequest | internal/api/handlers/execs.go:566-589 | 200 iff the passwords agree and the reset succeeds; 400 changes nothing |
| PasswordReset.Primary.UseTwice | internal/repository/sqlconnect/execs_crud.go:437-476 | a fresh token works once within its life, and not again |
| PasswordReset.NewestDecides | internal/repository/sqlconnect/execs_crud.go:452-457 | the newest token's text finds a row iff its exec exists and it is unexpired and unused |
| PasswordReset.OldTokenIsDead | internal/repository/sqlconnect/execs_crud.go:421-424 | a replaced token matches nobody |
| PhotoLifecycle.OwnerIsUnique | internal/api/handlers/students_photo.go:174-178 | no key passes the confirm check of two rows |
| PhotoLifecycle.IssuedKeysConfirm | internal/storage/photo/photo.go:164-169 | a presigned key passes confirmation for its own row and no other |
| PhotoLifecycle.AffectedIsChange | internal/repository/sqlconnect/students_photo.go:46-53 | a row counts as affected iff the UPDATE changed it |
| PhotoLifecycle.PhotoAfterSet | internal/repository/sqlconnect/students_photo.go:35-55 | the write of a key reaches the photo of one row |
| PhotoLifecycle.SetPhotoCells | internal/repository/sqlconnect/students_photo.go:38-46 | storing or clearing a key touches one cell: every other column of every row of every table keeps its value and its presence |
| PhotoLifecycle.StepKeepsKeys | internal/api/handlers/students_photo.go:138-187 | every step keeps each stored key inside its row's prefix |
| PhotoLifecycle.KeysAreDistinct | internal/api/handlers/students_photo.go:174-183 | in every run no two rows of any tables hold the same key, across all past states, so a stale read never shows another row's photo |
| PhotoLifecycle.RemovalIsHarmless | internal/api/handlers/students_photo.go:300-305 | removing a cleared row's object takes it from no other row or upload |
| PhotoLifecycle.PhotoSafety | internal/api/handlers/students_photo.go:281-305 | if no PUT-then-confirm overlaps a delete of the same row, a non-empty key on the primary names an existing object at every moment |
| PhotoLifecycle.OverlapDangles | internal/api/handlers/students_photo.go:281-305 | from any state with a replicated photo, an upload between the two halves of a delete leaves a dangling key |
| PhotoLifecycle.DanglingIsReachable | internal/api/handlers/students_photo.go:281-305 | such a run from a system without photos: the condition of photo safety is needed |
| PhotoHandlers.DeleteInOneStep | internal/api/handlers/students_photo.go:281-307 | wherever a delete stops, it did nothing, or cleared the row and removed at most the object the replica named |
| PhotoHandlers.DeleteMeaning | internal/api/handlers/students_photo.go:294-298 | exactly the named row loses its key, and only if the clear ran |
| PhotoHandlers.StaleKeyLeavesOrphan | internal/api/handlers/students_photo.go:281-305 | a complete delete removes the current object iff the replica named it |
| PhotoHandlers.ConfirmIsReported | internal/repository/sqlconnect/students_photo.go:50-53 | confirming the key a row holds is reported as a failure and changes nothing; any other key of an existing row succeeds |
| PhotoHandlers.Service.SetPhotoKey | internal/repository/sqlconnect/students_photo.go:35-55 | ok iff the UPDATE ran and changed the row, and then one cell of the database holds the key, or NULL for the empty key, and every other is what it was |
| PhotoHandlers.Service.GetPhotoKey | internal/repository/sqlconnect/students_photo.go:14-31 | the key on the replica, empty for NULL, an error for a missing row or a failing query |
| PhotoHandlers.Service.Confirm | internal/api/handlers/students_photo.go:138-187 | 400 without a change iff the id or the prefix is wrong, else 204 or 500 and the machine's step; a 204 has written the key to one cell, anything else has written nothing |
| PhotoHandlers.Service.Get | internal/api/handlers/students_photo.go:201-247 | 400, 404, 500 or 200 with the key that the replica shows, failing lookups and signing included |
| PhotoHandlers.Service.Delete | internal/api/handlers/students_photo.go:262-308 | the statuses exactly, failing lookups included, the machine's steps in order, what 204 promises about row and object, and that at most the photo cell of that row is cleared |
| PhotoHandlers.PathIdReads | internal/api/handlers/students_photo.go:149-154 | the decimal text of a number is an id iff the number is a positive 64-bit integer; a negative one never is |
| PhotoHandlers.Service.ClearAndRemove | internal/api/handlers/students_photo.go:293-307 | row first, object second, with the outcome of each way to stop |
| Sanitizer.CleanAt | internal/api/middlewares/sanitize.go:142-161 | cleaning adds and drops no path, cleans every string leaf and keeps keys, lengths and other leaves |
| Sanitizer.CleanTwice | internal/api/middlewares/sanitize.go:119-161 | cleaning is idempotent when the text sanitizer is |
| Sanitizer.CleanObject | internal/api/middlewares/sanitize.go:144-148 | the loop over a map, in any order, maps every entry |
| Sanitizer.CleanArray | internal/api/middlewares/sanitize.go:152-156 | the loop over a slice maps every element |
| Sanitizer.SanitizeValue | internal/api/middlewares/sanitize.go:142-161 | the in-place walk over unaliased memory equals the pure map of the text sanitizer, in the same containers |
| Sanitizer.CleanBody | internal/api/middlewares/sanitize.go:119-140 | the result stands for exactly the pure map of the body; fails iff the top level is a number, a boolean or null, and then changes no cell |

## Left out

- HTTP plumbing, authentication and roles, CORS, security headers, compression, logging, metrics: thin and library-bound.
- Argon2, SHA-256, JWT, RSA, CloudFront signing and bluemonday: parameters at most.
- PathOnly, clientIP, normalizeExt, isAllowedExt: short string computations whose contracts would repeat their bodies.
- The in-memory limiter, which the Redis limiter replaces; migrations, deployment and proxy configuration.
- The JSON text of bodies and cache entries, and JSON tags: a body is a map from model fields to values.
- Single-row GET, PUT and DELETE: one statement each; their commits appear as writes in the list and photo machines.
- Pagination arithmetic and the query whitelist: a list query is a parameter of table, raw query and visible rows.
- Handler-level inserts: the blank-field check rejects every decoded record, so inserts are modelled in the repository.
- Current-password verification and login lookup: the password change is one step of the reset-token machine.
- Expiry timestamps as text in two layouts: times are integers.
- Expiry of presigned URLs: a PUT may come at any time, which only adds runs.
- Repository.Primary.PatchMany: other transactions do not run between its reads and its commit, because isolation between transactions belongs to the database.
- Repository.Primary.PatchOne: its SELECT and UPDATE are one step here, for the same reason.
- WorkQueue.QueueDrains: handlers terminate by assumption and the number of losses is a parameter; fairness appears as "the run stops only where no useful step is possible".
- QueueProcesses.Broker.Consume: the turns of the select loop are a finite list, and its end counts as cancellation.
- Broker restarts and disk loss: a stored message stays stored.
