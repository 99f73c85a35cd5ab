# A verified model of the audiobook service

This Dafny project models the parts of the service in which a mistake would lose work, repeat it, or let the wrong
thing through, and proves what those parts promise. Every property is stated for all inputs, all runs or all
reachable states. `dafny verify dfyconfig.toml` checks the whole project.

Four kinds of module work together:

- **Machines.** `Jobs`, `Outbox`, `EventRuns`, `Sessions`, `Idempotency`, `Voice` and `Aliases` are state machines over
  tables, a broker and Redis. A transaction, or a service call that reads before its transaction, is one atomic step;
  crashes, lost connections and the steps of components not modelled are steps of their own. Each has an inductive
  invariant, its theorems hold in every run, and for its steps there are laws that give their exact effect in the
  table's own terms.
- **Services.** `Sweeper`, `JobsService`, `AuthService`, `VoiceService`, `AnalysisService`, `EventStreamService`,
  `Outbox.Store` and `Idempotency.Registry` are classes and methods that change their fields as the original methods
  do. Each contract gives the whole new state, in most cases as one step of the machine.
- **The event stream's query.** `EventTail` holds the poll, its cursors and frames; `EventGaps` says what the runs of
  `EventRuns` never send, and `EventProgress` when polls reach the end of a log.
- **Algorithms.** `CanonicalJson` with its reader `JsonText`, `Png`, `Jpeg`, `Base32`, `Totp`, `Uri` with
  `UriLanguage`, `Cookies`, `Pagination`, `Casting`, `Assembly` and `QualityReport` hold loops proved against recursive
  functions, and those functions' own laws: round trips, injectivity, exact outputs, exact conditions.

Assumptions: ids are fresh where they are made; hashes, HMAC and `toUpperCase` outside ASCII are parameters; the
broker ignores an id it already holds in a queue; `FOR UPDATE SKIP LOCKED` is a claim of rows nobody else holds;
timestamps are whole microseconds.

## Where the code falls short of its comments

The model follows the code. In each of these places a lemma gives the exact condition, or a run that shows the case.

- **Cancellation.** `jobs.service.ts:307-311` says that a failed Redis write does not lose a cancellation, because
  the worker falls back to the column. The Python gate, in front of the ai and gpu queues, does look at the column
  (`cancellation.py:123-130`). The gate in front of the parse, audio and maintenance queues reads it only when Redis
  cannot be read (`packages/queue/src/cancellation.ts:78-92`), so there a flag that was never written, or that expired,
  lets the next attempt start (`JobTheorems.RequestedJobHalts`, `JobTheorems.RequestCanBeMissed`).
- **CANCELLED is not final for a job already let through.** Processors write their status unconditionally
  (`JobTheorems.WhenCancelledCanBeLeft`), and the gate turns a finished job that is delivered again into CANCELLED
  when it sees a request (`JobTheorems.FinishedJobAtGate`, `JobTheorems.SucceededThenCancelled`).
- **A clean-up job escapes its gate.** The relay of the outbox enqueues it under the outbox row's id
  (`providers.module.ts:114-136`), so the gate finds no job, and the processor writes SUCCEEDED over a cancellation
  (`JobTheorems.CleanUpRunsAfterCancel`, `JobTheorems.CancelledIsFinalIff`).
- **Cursors keep milliseconds, columns microseconds.** `created_at` is `Timestamptz(6)`, a JavaScript `Date` has
  milliseconds. A walk over pages is right for every page size exactly when `Pagination.Faithful` holds, the table
  changing or not (`Pagination.WalksAreRightIffFaithful`, `Pagination.ChangingWalksAreRightIffFaithful`; one page size:
  `Pagination.WalkIsRightIffTrue`, `Pagination.ChangingWalksAreRightIffFaithfulFrom`). The event
  stream never skips a frame it passes, but it sends rows of a doubtful millisecond again
  (`EventRuns.NoRepeatsIffRepeatFree`), and polls can go round in one millisecond for ever and leave everything behind
  it unsent (`EventGaps.StuckRun`, `EventGaps.CrowdIsAGap`, `EventProgress.PollsReachEndIffNoTrap`).
- **Replay** copies `entity_id`, so an envelope whose entity is the job names the original (`JobsService.ReplayJob`).
- **A rotated but expired refresh token** is answered with TOKEN_EXPIRED and does not revoke its family
  (`Sessions.ReuseKillsFamily`).
- **An idempotency key** whose process died stays in progress, and a handler that returned may run again when the
  write of its response failed (`Idempotency.StuckForEver`, `Idempotency.EffectsAreAccounted`).
- **Stripping a cover image** can change the dimensions read from it: for a PNG whose first chunk is metadata or a
  too short IHDR, and for a JPEG whose start of frame declares a length of 2 to 6.
- **`verifyTotp`** throws a RangeError when the window reaches below counter 0 (`Totp.ThrowsIff`).
- **A cookie named `__proto__`** is lost on the plain object `parseCookies` fills (`Cookies.SurvivesIffGood`).
- **A SPLIT** moves no alias back, although the record is documented as reversible (`Aliases.SplitRestoresIff`).
- **A forced assembly** of chapters that were assembled from the same chunks violates the unique index over
  idempotency keys of live jobs (`Assembly.ForcedRepeatIff`). The API compares hashes only, the worker's readiness
  also asks for status ASSEMBLED (`Assembly.StartedAudiobookReadyIff`).
- **A merged character that speaks** is shown as ready by the client without any assignment (`Casting.ClientAgrees`).

## Model

| member | source | states |
|---|---|---|
| Jobs.StepKeepsInv | packages/queue/src/dispatch.ts:31-45 | Every step of services (coordinator rows, child jobs of the Python workers and relayed clean-ups included), sweepers, cancels, gates, processors and crashes keeps the invariant: broker entries carry the envelope their row records, `queued_at` only after acceptance, claims disjoint, cancellation columns and events in agreement |
| JobTheorems.RunKeepsInv | apps/worker-cpu/src/processing-job-sweeper.ts:83-135 | The invariant holds after any run from any state in which it holds |
| JobTheorems.NoJobLost | apps/worker-cpu/src/processing-job-sweeper.ts:83-135 | In every run a CREATED row with an envelope is held by the broker, was handed to a worker, or qualifies for the sweep once old enough: no committed job is lost |
| JobTheorems.BrokerAgreesWithRows | packages/queue/src/queue-manager.ts:67-84 | In every run the broker holds an id in one queue at most, its row's, under the envelope its row records if it records one, and `queued_at` means the broker accepted the id |
| JobTheorems.SweepersAreDisjoint | apps/worker-cpu/src/processing-job-sweeper.ts:84-95 | Sweepers running at once never hold the same row, and what they hold is still CREATED and unmarked |
| JobTheorems.CancellationIsConsistent | apps/api/src/jobs/jobs.service.ts:516-534 | Unless a processor wrote over it: effective exactly when CANCELLED, then always requested, and one `job.cancelled` event exactly when CANCELLED |
| JobTheorems.CancelledIsLeftOnlyByProcessors | apps/worker-cpu/src/cancellation-gate.ts:45-116 | No step but a processor's own write leaves CANCELLED, and no gate admits a CANCELLED job |
| JobTheorems.WhenCancelledCanBeLeft | apps/worker-cpu/src/cancellation-gate.ts:45-116 | Some step can leave CANCELLED exactly when a gate had admitted the job before, or its clean-up was relayed under another id and is not done |
| JobTheorems.CancelledBeforeStartIsFinal | apps/worker-cpu/src/cancellation-gate.ts:45-116 | A job cancelled before any gate admitted it, and with no clean-up still to be run for it, stays CANCELLED and is never admitted, in every continuation |
| JobTheorems.CancelledIsFinalIff | apps/worker-cpu/src/cancellation-gate.ts:45-116 | CANCELLED is kept in every continuation if and only if no gate had admitted the job and no clean-up is still to be run for it |
| JobTheorems.CancelledThenLeft | apps/worker-cpu/src/cancellation-gate.ts:45-116 | A concrete run in which a job is cancelled between its gate and its processor, which then writes RUNNING |
| JobTheorems.CleanUpRunsAfterCancel | apps/api/src/common/providers.module.ts:114-136 | A concrete run in which a clean-up is cancelled before the relay, which enqueues it under the outbox row's id, and becomes SUCCEEDED without any gate admitting the job |
| JobTheorems.CancelReachesChildren | apps/api/src/jobs/jobs.service.ts:243-279 | A cancel leaves the job and each unfinished child CANCELLED, or RUNNING and requested; finished ones are untouched |
| JobTheorems.CancelTwice | apps/api/src/jobs/jobs.service.ts:233-279 | A second cancel changes nothing, whatever the status of the job and its children |
| JobTheorems.CancelChangesExactly | apps/api/src/jobs/jobs.service.ts:233-279 | The whole effect of a cancel on any row: finished or unrelated ones kept, running ones asked to stop, others CANCELLED with one event each; broker, flags and claims untouched |
| JobTheorems.RequestedJobHalts | packages/queue/src/cancellation.ts:78-92 | A requested job is stopped by its gate exactly when it is CANCELLED, is of the ai or gpu queue, its flag is in Redis, or Redis cannot be read, and admitted otherwise |
| JobTheorems.GateChangesExactly | apps/worker-cpu/src/cancellation-gate.ts:45-116 | The whole effect of a gate on any job: when it stops it, the row and the one event it writes, when it lets it through, and that nothing else changes |
| JobTheorems.RequestCanBeMissed | packages/queue/src/cancellation.ts:78-92 | A concrete run in which a durable request for a parse job is not seen, because the flag is absent while Redis answers |
| JobTheorems.FinishedJobAtGate | apps/worker-cpu/src/cancellation-gate.ts:45-116 | A finished job that is delivered again becomes CANCELLED exactly when its gate sees a request, and is left alone otherwise |
| JobTheorems.SucceededThenCancelled | apps/worker-cpu/src/cancellation-gate.ts:45-116 | A concrete run in which a SUCCEEDED job becomes CANCELLED at the gate |
| Sweeper.EnqueueProcessingJob | packages/queue/src/dispatch.ts:31-45 | Enqueue before mark: every failure leaves `queued_at` unset, an id the broker holds is ignored, and each error case is told apart |
| Sweeper.PollOnce | apps/worker-cpu/src/processing-job-sweeper.ts:97-134 | The loop dispatches exactly the rows with a known queue whose enqueue succeeds, from their own envelopes, marks exactly those, and counts them |
| Sweeper.ClaimIsPossible | apps/worker-cpu/src/processing-job-sweeper.ts:84-95 | The oldest unlocked orphans up to the limit are a batch the machine's claim accepts, so a sweeper is never blocked |
| Sweeper.PollsDrain | apps/worker-cpu/src/processing-job-sweeper.ts:83-135 | When every orphan names a known queue and the broker takes it, k polls dispatch exactly the min(n, k * limit) oldest of n orphans and leave the rest in order |
| Sweeper.SecondSweeperTakesTheNext | apps/worker-cpu/src/processing-job-sweeper.ts:84-95 | A sweeper started while another holds its batch takes exactly the next oldest rows |
| Sweeper.PollIsARun | apps/worker-cpu/src/processing-job-sweeper.ts:83-135 | Claim, loop and commit run without interruption change rows and broker as `PollOnce` says, give the claim back and touch nothing else; a sweeper that dies before the commit leaves every row unmarked and free |
| Sweeper.DispatchIsARun | packages/queue/src/dispatch.ts:31-45 | Committing a row, enqueueing and marking it, run without interruption, leave exactly that row marked and its envelope with the broker |
| JobsService.CancelJob | apps/api/src/jobs/jobs.service.ts:223-305 | The loops over job and children equal the machine's cancel: who is stopped outright, who is only asked, one event each, NotFound outside the tenant |
| JobsService.CleanUp | apps/api/src/jobs/jobs.service.ts:307-322 | The clean-up after the commit: flags set and broker entries removed for exactly the calls that succeed |
| JobsService.HaltIfCancelled | apps/worker-cpu/src/cancellation-gate.ts:45-116 | When the gate of the parse, audio and maintenance queues halts, and the row and event it writes when it stops a job itself |
| JobsService.HaltIfCancelledInPython | python/workers-common/src/workers_common/cancellation.py:100-176 | When the gate of the ai and gpu queues halts: the column first, then what Redis or the column says; the same row and event |
| JobsService.ReplayJob | apps/api/src/jobs/jobs.service.ts:363-453 | Replayable exactly when FAILED or DEAD_LETTERED with an envelope and a known queue; then a fresh row, spelled out field by field with the envelope copied but for `job_id`; answered exactly when the broker takes it, with `queued_at` set and the envelope in the broker, otherwise the row waits for the sweeper; original and all other rows untouched |
| Outbox.StepKeepsInv | packages/events/src/outbox-publisher.ts:83-144 | Every step, crashes, refusals and redeliveries included, keeps message counts, claims and inbox in agreement |
| Outbox.PublishedAtLeastOnce | packages/events/src/outbox-publisher.ts:83-144 | In every run a PUBLISHED row's message was sent under its one event id, once plus once for each rolled-back or throwing publication |
| Outbox.ExactlyOnceWithoutCrashes | packages/events/src/outbox-publisher.ts:83-144 | Without rollbacks and throws after sending, a PUBLISHED row's message was sent exactly once and any other at most once |
| Outbox.PublishersAreDisjoint | packages/events/src/outbox-publisher.ts:84-94 | Two publishers never hold the same row |
| Outbox.EffectOncePerInboxRow | packages/events/src/inbox.ts:26-45 | Each (consumer, event) has its effect committed once exactly when its inbox row exists, and only for messages that were sent |
| Outbox.DeliverRecords | packages/events/src/inbox.ts:26-45 | In every reachable state a delivery that does not throw leaves the pair in the inbox with exactly one effect and touches no other pair; every further delivery of it changes nothing |
| Outbox.ThrowingDeliveryLeavesNothing | packages/events/src/inbox.ts:26-45 | A delivery whose handler throws changes nothing, so the event can come again |
| Outbox.Store.WriteOutboxMessage | packages/events/src/outbox.ts:31-60 | A new PENDING row under an event id no row has, so ids stay unique; no other row changed |
| Outbox.Store.PublishOne | packages/events/src/outbox-publisher.ts:116-140 | One row settled by its own outcome, field by field: published, kept PENDING with the attempt and the error counted, or failed for good; the message goes out exactly unless the call was refused |
| Outbox.Store.PollOnce | packages/events/src/outbox-publisher.ts:83-144 | Every row of the batch is settled by its own outcome alone, every other row is kept, exactly the batch's messages go out, and the size of the batch is returned |
| Outbox.OutgoingCounts | packages/events/src/outbox-publisher.ts:100-144 | A batch sends the event of each of its rows once, unless the call was refused, and no other event |
| Outbox.ClaimIsPossible | packages/events/src/outbox-publisher.ts:84-94 | In every state some batch within the limit can be claimed, so a publisher is never blocked |
| Outbox.PollEmptiesTheOutbox | packages/events/src/outbox-publisher.ts:83-144 | A batch below the limit whose calls all succeed leaves nothing PENDING but what other publishers hold |
| Outbox.PollIsARun | packages/events/src/outbox-publisher.ts:83-144 | Claim, publications and commit, run without interruption, change rows and messages exactly as `Store.PollOnce` says |
| Outbox.DeadPublisherIsRetried | packages/events/src/outbox-publisher.ts:83-144 | A publisher that dies before its commit leaves every row as it was, and the same batch can be claimed again |
| Outbox.WriteAndDeliverAreSteps | packages/events/src/inbox.ts:26-45 | Writing a message and handling a delivery are single steps of the machine on the store's components |
| Outbox.Store.WithInbox | packages/events/src/inbox.ts:26-45 | Without an inbox row and without a throw, the row and one effect are recorded and (true, true) answered; a known pair is skipped and a throw rolls back, both without any change |
| EventTail.OwnStands | apps/api/src/events/event-stream.service.ts:270-302 | The cursor made of a row stands right after it if and only if the row lies at a whole millisecond; otherwise it stands before it, within the same millisecond |
| EventTail.IdlePollIsEmptyIffWhole | apps/api/src/events/event-stream.service.ts:270-302 | With nothing new, the next poll is empty if and only if the last row in scope lies at a whole millisecond |
| EventRuns.OpKeeps | apps/api/src/events/event-stream.service.ts:174-184 | Over any ordered log, every append, poll, lost connection and reconnect keeps: no frame from the start point up to some position is missing, and the frames came in steps, each the next frame or one of the same doubtful millisecond |
| EventRuns.NoneMissing | apps/api/src/events/event-stream.service.ts:224-302 | Over any run and any ordered log the client has every in-scope public event between its start point and some position and none beyond; the start is the first event after the instant of connecting and moves only on connects that start over |
| EventRuns.OnlyOwnEvents | apps/api/src/events/event-stream.service.ts:224-302 | Whatever a client receives in any run is in the log, public, of its own tenant and of its book or job |
| EventRuns.ReconnectIs | apps/api/src/events/event-stream.service.ts:224-263 | A connection lost and opened again keeps what was received and carries on from its last event exactly when that one lies inside the window; otherwise it starts over at the present millisecond |
| EventRuns.FramesMoveOn | apps/api/src/events/event-stream.service.ts:174-184 | Of any two frames the later one lies further on in the log, or both are of one millisecond, and that one holds rows which cursors cannot tell apart: repeats are confined to such milliseconds |
| EventRuns.ShortPollCatchesUp | apps/api/src/events/event-stream.service.ts:270-302 | After a poll that returns fewer rows than the batch, every frame from the start point to the end of the log has been received |
| EventRuns.ReceivedIsTheTail | apps/api/src/events/event-stream.service.ts:224-302 | When no row is doubtful, received is exactly the frames between the start point and some position, in order and once each |
| EventRuns.NoRepeatsIffRepeatFree | apps/api/src/events/event-stream.service.ts:224-302 | No run over a log sends a row twice if and only if no public row in scope lies past the cursor of itself or of a later row in scope |
| EventRuns.WholeIsRepeatFree | apps/api/src/events/event-stream.service.ts:270-302 | A log whose rows in scope lie at whole milliseconds meets that condition |
| EventGaps.LateRowStaysBehind | apps/api/src/events/event-stream.service.ts:270-302 | A row that appears behind the cursor is sent by no later poll of the connection, whatever is appended, provided no row in scope past the cursor would put the cursor before it |
| EventGaps.LateRowIsNeverSentIff | apps/api/src/events/event-stream.service.ts:270-302 | That proviso is exact: otherwise two polls send the row |
| EventGaps.CrowdIsAGap | apps/api/src/events/event-stream.service.ts:270-302 | When as many rows in scope as a poll reads, or more, lie within one millisecond and none at its start, nothing behind them is received in any run that does not start over |
| EventGaps.StuckRun | apps/api/src/events/event-stream.service.ts:270-302 | A concrete run: three rows within one millisecond and polls of two; every poll sends the same two rows, and the third never comes |
| EventProgress.PollsReachEndIffNoTrap | apps/api/src/events/event-stream.service.ts:270-302 | For every log and batch size the polls reach the end from every cursor if and only if there is no trap: rows of one millisecond, without the last row, each followed after a poll by one of them |
| EventProgress.AlwaysReachesEndIffRoomy | apps/api/src/events/event-stream.service.ts:270-302 | They reach the end from every cursor whatever the ids are if and only if no batch of consecutive rows in scope, short of the last one, lies within one millisecond and ends past its start |
| EventProgress.TailOfScoped | apps/api/src/events/event-stream.service.ts:270-302 | A poll of the log is a poll of its rows in scope, which are ordered too |
| EventStreamService.Stream.Poll | apps/api/src/events/event-stream.service.ts:174-195 | One tick writes exactly the public rows of the tail in order and moves the cursor to the last row read; a closed stream does nothing |
| EventStreamService.Counter.Open | apps/api/src/events/event-stream.service.ts:123-132 | A stream is accepted exactly below the limit, and the counter equals the number of live streams |
| EventStreamService.Counter.Close | apps/api/src/events/event-stream.service.ts:160-167 | Closing takes the stream off once, a second call changes nothing, no zero entries stay |
| Sessions.CallKeepsInv | apps/api/src/auth/auth.service.ts:296-361 | Login, refresh, reuse, logout and password reset keep the chains and the session and token revocations in agreement |
| Sessions.FamilyIsOneChain | apps/api/src/auth/auth.service.ts:296-361 | In every reachable state a family belongs to one session and is one chain under `rotatedToId`, with exactly one unrotated end |
| Sessions.SessionRevokedWithItsTokens | apps/api/src/auth/auth.service.ts:539-558 | A session is revoked exactly when all its tokens are, and exactly when any of them is |
| Sessions.OneUsableTokenPerSession | apps/api/src/auth/auth.service.ts:296-361 | At most one token of a session is usable, whatever the time |
| Sessions.RefreshHandsOver | apps/api/src/auth/auth.service.ts:328-361 | A refresh ends the presented token, makes the new one usable in the same session, and changes no other |
| Sessions.RefreshedTokenLives | apps/api/src/auth/auth.service.ts:328-361 | The token a refresh hands out is usable exactly until the new expiry, of the same user and family, and the presented one at no time |
| Sessions.ReuseKillsFamily | apps/api/src/auth/auth.service.ts:296-327 | Presenting a token kills its live family if and only if the token is rotated, unrevoked and unexpired |
| Sessions.AnswersAre | apps/api/src/auth/auth.service.ts:296-327 | Which answer a token gets in every reachable state: revoked, expired, reused or accepted, each under its exact condition |
| Sessions.RefusedRefresh | apps/api/src/auth/auth.service.ts:296-327 | A refused refresh changes nothing, unless it is a reuse, which marks exactly the family's unrevoked tokens and no other session |
| Sessions.ReuseIsFinal | apps/api/src/auth/auth.service.ts:539-558 | After such a reuse no token of the family is usable in any continuation |
| Sessions.DeadFamilyForEver | apps/api/src/auth/auth.service.ts:539-558 | A family whose tokens are all revoked stays so, and none of its tokens is usable, after any calls at any time |
| Sessions.ResetRevokesTheUser | apps/api/src/auth/auth.service.ts:425-458 | After a password reset exactly the other users' usable tokens are still usable |
| Sessions.LogoutEndsTheSession | apps/api/src/auth/auth.service.ts:364-379 | In every reachable state a logout ends exactly the tokens of that session, if it is the user's own, whenever they would expire |
| Sessions.LogoutTouchesOneSession | apps/api/src/users/users.service.ts:155-179 | After a logout the own session is revoked, and every other session and every token of other sessions is unchanged; another user's session is left alone |
| Sessions.LoginOpensASession | apps/api/src/auth/auth.service.ts:474-506 | A login opens one unrevoked session with one token that is usable until it expires, and changes nothing else |
| AuthService.AuthTables.IssueSession | apps/api/src/auth/auth.service.ts:474-506 | A new session with the first token of a new family: one Login of the machine |
| AuthService.AuthTables.Refresh | apps/api/src/auth/auth.service.ts:296-361 | The checks in order, the answer for each, and the new state: one Refresh of the machine, reuse included |
| AuthService.AuthTables.RevokeTheFamily | apps/api/src/auth/auth.service.ts:539-558 | Revokes the family's tokens and every session they belong to, marking the reuse |
| AuthService.AuthTables.LogoutSession | apps/api/src/auth/auth.service.ts:364-379 | NotFound for a session that is not the user's; otherwise the session and its unrevoked tokens are revoked and every other row is kept; one Logout of the machine |
| AuthService.AuthTables.ConfirmPasswordReset | apps/api/src/auth/auth.service.ts:425-458 | Too short or unknown tokens change nothing; otherwise all the user's sessions and tokens are revoked and the reset token is used up |
| Pagination.WalkVisitsAll | apps/api/src/books/books.service.ts:209-257 | On a fixed table whose page ends have true cursors the walk visits each row once, in order, in max(1, ceil(n / limit)) pages, and then stops |
| Pagination.PagesIsCeiling | apps/api/src/common/pagination.ts:74-91 | The number of pages is max(1, ceil(n / limit)) |
| Pagination.WalkIsRightIffTrue | apps/api/src/jobs/jobs.service.ts:537-551 | For one page size the walk over a fixed table is right if and only if the cursors of the rows that end its pages can be gone by |
| Pagination.TrueFromIff | apps/api/src/common/pagination.ts:74-91 | The rows that end the pages are every `limit`-th one short of the last |
| Pagination.WalksAreRightIffFaithful | apps/api/src/jobs/jobs.service.ts:537-551 | The walk is right for every page size if and only if every cursor but the last row's agrees with the rows in the sense of `Agrees` |
| Pagination.WholeIsFaithful | apps/api/src/jobs/jobs.service.ts:477-494 | Rows at whole milliseconds, in either order, always meet that condition |
| Pagination.NothingTwice | apps/api/src/jobs/jobs.service.ts:537-551 | Whatever is added or removed between requests, if the rows ever listed are together faithful from the page size on, rows come in order and none twice |
| Pagination.PresentThroughout | apps/api/src/books/books.service.ts:209-257 | Under the same condition a row present in every request's table is visited exactly once by a walk that ends |
| Pagination.ChangingWalksAreRightIffFaithfulFrom | apps/api/src/jobs/jobs.service.ts:537-551 | For one page size, over all sequences of tables drawn from a list of rows: every walk is in order, without repeats and complete when it ends, if and only if the rows from the `limit`-th on, short of the last, have cursors that can be gone by |
| Pagination.ChangingWalksAreRightIffFaithful | apps/api/src/jobs/jobs.service.ts:537-551 | The same over all page sizes, if and only if the list is Faithful |
| Pagination.WrongWalk | apps/api/src/jobs/jobs.service.ts:477-494 | Where a cursor cannot be gone by, two tables and one page size: a row is missed, newest first, or comes back, oldest first |
| CanonicalJson.TextIsCanonical | packages/ingestion/src/hashing.ts:19-31 | Two JSON values of any depth have the same text if and only if they are equal up to the order of object members |
| JsonText.TextReadsBack | packages/ingestion/src/hashing.ts:19-31 | The text is JSON: a reader of RFC 8259 written apart from the printer gives the value back with nothing left over, equal up to member order and with every object in key order |
| JsonText.EscapeIsShortest | packages/ingestion/src/hashing.ts:19-31 | No unit but a surrogate could be written shorter: short escapes where JSON has them, lower-case hexadecimal digits otherwise |
| JsonText.LessIff | packages/ingestion/src/hashing.ts:19-31 | Key order is by the first code unit in which two keys differ, a prefix before what it begins |
| CanonicalJson.PrefixFree | apps/api/src/common/idempotency.service.ts:125-130 | A value's text followed by anything that may follow it determines the value and the rest: the printer is uniquely readable |
| CanonicalJson.SameText | apps/api/src/voice/voice.service.ts:972-977 | Values equal up to member order print alike, at every depth |
| CanonicalJson.QuotedPrefixFree | packages/ingestion/src/hashing.ts:19-31 | Quoted strings, lone surrogates and control characters included, can be read back from the text and end at their own closing quote |
| Idempotency.EffectsAreAccounted | apps/api/src/common/idempotency.service.ts:31-121 | In every run a key's handler returned once for its kept response plus once for each response lost to a crash or a failed write |
| Idempotency.CompletedIsFinal | apps/api/src/common/idempotency.service.ts:61-67 | A stored response is never changed and no further handler run counts under its key, in any continuation |
| Idempotency.RetryReplays | apps/api/src/common/idempotency.service.ts:31-121 | A served request is answered with its stored response in every continuation, its handler never returns again, and another body under its key conflicts |
| Idempotency.ThrownMayRetryIff | apps/api/src/common/idempotency.service.ts:103-121 | After a throwing handler the request may be sent again exactly when the catch block's write succeeded; otherwise it is refused as in progress; no effect is left |
| Idempotency.LookupIs | apps/api/src/common/idempotency.service.ts:54-75 | In every reachable state: proceed for a new or failed key, replay of the very response stored, refused in progress, conflict for another hash, each if and only if |
| Idempotency.ConflictIffDifferent | apps/api/src/common/idempotency.service.ts:54-60 | Under a used key a body conflicts if and only if it differs from the first in more than member order |
| Idempotency.StuckIff | apps/api/src/common/idempotency.service.ts:103-121 | An ended attempt leaves its key stuck in IN_PROGRESS exactly after a crash, or when the catch block's own write fails |
| Idempotency.StuckForEver | apps/api/src/common/idempotency.service.ts:68-73 | A stuck key is refused in every continuation |
| Idempotency.Registry.RunRequest | apps/api/src/common/idempotency.service.ts:31-121 | One request from start to end: refused, replayed or run, each under its exact condition; a refusal or replay changes nothing, and a run leaves the row, effects and lost responses its outcome says, as the machine's steps do |
| Png.StripPngMetadata | apps/api/src/assembly/strip-exif.ts:69-87 | The loop terminates on every buffer and returns what `Strip` says |
| Png.StrippedChunks | apps/api/src/assembly/strip-exif.ts:69-87 | The output is the signature, exactly the complete non-metadata chunks in order, and any tail of eight bytes or more; it holds no complete metadata chunk |
| Png.ChunksCover | apps/api/src/assembly/strip-exif.ts:69-87 | Splitting a buffer into chunks and a leftover loses no byte |
| Png.ChunkIsCutIffNamed | apps/api/src/assembly/strip-exif.ts:69-87 | A whole chunk is cut out exactly if its name is eXIf, tEXt, zTXt, iTXt or tIME, and otherwise copied byte by byte |
| Png.CutOffIsCopied | apps/api/src/assembly/strip-exif.ts:69-87 | A chunk that is cut off is copied as it is; fewer than eight bytes are dropped |
| Png.StrippingTwice | apps/api/src/assembly/strip-exif.ts:69-87 | Stripping twice equals stripping once, for every buffer |
| Png.DimensionsKeptIffSafe | apps/api/src/assembly/image-dimensions.ts:16-25 | For every first chunk header: reading after stripping equals reading before, whatever follows, if and only if the chunk is not metadata and an IHDR declares four bytes or more |
| Png.DimensionsAre | apps/api/src/assembly/image-dimensions.ts:16-25 | There is an answer exactly for 24 bytes or more with the signature and IHDR; width and height are its first two big-endian numbers |
| Png.ShortOrUnsignedKeeps | apps/api/src/assembly/image-dimensions.ts:16-25 | Every buffer without a signature, or too short for a chunk header, reads the same after stripping |
| Jpeg.StripJpegExif | apps/api/src/assembly/strip-exif.ts:27-67 | The loop terminates on every buffer and returns what `Strip` says |
| Jpeg.SegmentIsCutIffApp1 | apps/api/src/assembly/strip-exif.ts:27-67 | A whole segment is cut out exactly if it is an APP1, and otherwise copied byte by byte |
| Jpeg.RestIsCopied | apps/api/src/assembly/strip-exif.ts:27-67 | From a scan, an end marker or a byte that is no marker on, everything is copied; a marker without length is copied alone |
| Jpeg.ReadJpegDimensions | apps/api/src/assembly/image-dimensions.ts:27-61 | The reader's loop terminates on every buffer and returns what `ReadDimensions` says; `Jpeg.ReadsTheFirstFrame` and `Jpeg.NoFrameNoAnswer` say what that is |
| Jpeg.ReadsTheFirstFrame | apps/api/src/assembly/image-dimensions.ts:27-61 | Behind any segments that are no frame, the first start of frame gives height and width as the numbers at its bytes 5 and 7, and none if it is cut off or a scan comes first |
| Jpeg.NoFrameNoAnswer | apps/api/src/assembly/image-dimensions.ts:27-61 | No answer without the start marker or without a start of frame |
| Jpeg.SafeBuffersKeep | apps/api/src/assembly/image-dimensions.ts:27-61 | Every buffer whose first start of frame declares no length from 2 to 6 reads the same after stripping |
| Jpeg.DimensionsKeptIffSafe | apps/api/src/assembly/strip-exif.ts:27-67 | Behind any header both walkers step through: the dimensions are kept whatever follows if and only if the start of frame declares no length from 2 to 6 |
| Jpeg.WellFormedClean | apps/api/src/assembly/strip-exif.ts:27-67 | Of whole segments before a scan exactly the APP1 ones go, none is left, and stripping again changes nothing |
| Base32.Decode | apps/api/src/auth/totp.ts:57-70 | The two loops compute the whole bytes of the concatenated five-bit groups |
| Base32.DecodeInvertsEncode | apps/api/src/auth/totp.ts:57-70 | Every spelling of the RFC 4648 encoding of any bytes, in either case, padded and separated at will, decodes to those bytes |
| Base32.EncodedTextDecodes | apps/api/src/auth/totp.ts:54-70 | The standard's own text, padding included, decodes to the bytes |
| Base32.DecodedLength | apps/api/src/auth/totp.ts:57-70 | n symbols give floor(5n / 8) bytes |
| Base32.BitByBit | apps/api/src/auth/totp.ts:57-70 | Every bit of every decoded byte is the bit of the symbol RFC 4648 puts there: five bits from each symbol in order, the most significant first |
| Base32.AlphabetIs | apps/api/src/auth/totp.ts:54-58 | A to Z stand for 0 to 25 and 2 to 7 for 26 to 31; any other character for nothing |
| Base32.SeparatesIffHarmless | apps/api/src/auth/totp.ts:58 | A character can be put anywhere without effect if and only if its upper case holds no symbol |
| Totp.HalvesRecombine | apps/api/src/auth/totp.ts:35-37 | The two 32-bit halves in the buffer recombine to the counter |
| Totp.TruncationIsDynamic | apps/api/src/auth/totp.ts:39-44 | Truncation reads four bytes inside the 20-byte digest and equals RFC 4226's dynamic truncation |
| Totp.CodeIsSixDigits | apps/api/src/auth/totp.ts:45 | A code is six digits and reads as the truncated value modulo a million |
| Totp.HotpCode | apps/api/src/auth/totp.ts:34-46 | The code of every counter from 0 to 2^64 - 1, a RangeError for any other |
| Totp.VerifyTotp | apps/api/src/auth/totp.ts:17-31 | The loop over the window: accepted, refused or thrown exactly as `Verdict` says, malformed codes refused |
| Totp.AcceptsExactlyTheWindow | apps/api/src/auth/totp.ts:17-31 | With the window in range, exactly the codes of its counters are accepted |
| Totp.ThrowsIff | apps/api/src/auth/totp.ts:26-29 | Verification throws exactly when the window reaches below 0, or past 2^64 - 1 without an earlier match |
| Totp.OwnCodeInWindow | apps/api/src/auth/totp.ts:17-31 | A counter is in the window exactly from `window` steps before its half minute to `window` steps after, and its own code is then accepted |
| Uri.RoundTrip | apps/api/src/auth/cookies.ts:30-52 | Exactly the strings without unpaired surrogates can be percent-encoded, and decoding gives them back |
| Uri.KeptIff | apps/api/src/auth/cookies.ts:30 | Exactly the letters, digits and - _ . ! ~ * ' ( ) stay as they are |
| Uri.OctetsAre | apps/api/src/auth/cookies.ts:30 | Every other character is written as the percent-encoded octets of its UTF-8 form, of the length and with the lead and continuation octets of RFC 3629 |
| UriLanguage.DecodesIff | apps/api/src/auth/cookies.ts:52 | A string decodes to another if and only if it writes its characters one by one, each as itself unless it is `%`, or as the percent-encoded octets of its shortest UTF-8 form, in digits of either case |
| Cookies.SerializeCookie | apps/api/src/auth/cookies.ts:29-37 | The parts pushed are the pair and the attributes in order; an unpaired surrogate throws |
| Cookies.PairOfSetCookie | apps/api/src/auth/cookies.ts:29-37 | What stands before the first `;` is the very pair, whatever the attributes |
| Cookies.BrowserReads | apps/api/src/auth/cookies.ts:29-37 | A browser (RFC 6265, section 5.2) reads from the header the pair and then exactly the attributes the options ask for, each once: HttpOnly and Secure only if asked for, Max-Age never below zero, Path `/` and SameSite Lax by default |
| Cookies.ParseCookies | apps/api/src/auth/cookies.ts:44-55 | The loop over the parts computes `Parsed`, errors included |
| Cookies.HeaderParsesBack | apps/api/src/auth/cookies.ts:44-55 | The header that sends any list of well-formed cookies parses to exactly their names, each with its last value |
| Cookies.SurvivesIffGood | apps/api/src/auth/cookies.ts:47-53 | A name gives back every value if and only if it is well formed and is not `__proto__` |
| Cookies.ParsedNamesAreGood | apps/api/src/auth/cookies.ts:47-53 | Whatever the header, every parsed name is well formed |
| Cookies.ParsingThrowsIff | apps/api/src/auth/cookies.ts:47-53 | Parsing throws if and only if some named part holds no valid percent-encoding |
| Voice.RunKeepsInv | apps/api/src/voice/voice.service.ts:220-426 | In every run versions are numbered 1 to versionCount, derived ones point to smaller numbers, the active number is the largest ever approved, and each character has at most one active assignment, to a version in production |
| Voice.VoiceIsKept | apps/api/src/voice/voice.service.ts:588-724 | A character loses its active assignment only by a clear or by its own next assignment |
| Voice.AssignSwaps | apps/api/src/voice/voice.service.ts:588-692 | An assignment replaces the character's active one and touches no other |
| Voice.AssignIff | apps/api/src/voice/voice.service.ts:588-692 | An assignment succeeds exactly for a castable character and a version in production in the right language; it binds the version named, otherwise the largest ever approved |
| Voice.AssignIsRefusedIff | apps/api/src/voice/voice.service.ts:588-660 | Which refusal an assignment gets, each under its exact condition |
| Voice.CreateVersionIff | apps/api/src/voice/voice.service.ts:220-317 | A version is created exactly with attested consent, third-party text and a known source: one draft with the next number and the source it derives from, nothing else changed; each refusal under its exact condition |
| Voice.ApproveIff | apps/api/src/voice/voice.service.ts:328-381 | Approval is refused exactly without a preview; it leaves the version in production, the active number at the larger of the two, and all else unchanged |
| Voice.DisapproveIff | apps/api/src/voice/voice.service.ts:328-381 | Only a version with a generated preview can be sent back, and becomes a draft |
| Voice.LockIff | apps/api/src/voice/voice.service.ts:383-404 | Exactly versions in production, or locked ones, can be locked; nothing but the lock changes |
| Voice.RetireIff | apps/api/src/voice/voice.service.ts:406-426 | A version is retired exactly if no active assignment uses it |
| Voice.ClearIff | apps/api/src/voice/voice.service.ts:694-724 | A clear is refused exactly when locked chunks use an active assignment; otherwise the character has none left, and no other character's changes |
| Voice.DeleteIff | apps/api/src/voice/voice.service.ts:189-209 | A profile is deleted exactly if none of its versions is locked |
| Voice.PreviewIs | apps/api/src/voice/voice.service.ts:351-361 | A ready preview is recorded on its version, and a draft becomes a generated preview; nothing else changes |
| Voice.VoiceFromNothing | apps/api/src/voice/voice.service.ts:220-692 | From the empty state: profile, consented version, preview, approval, character and assignment give exactly one active assignment, bound to the approved version |
| Voice.ProductionIsLeftOnlyByRetiring | apps/api/src/voice/voice.service.ts:406-426 | A version leaves production exactly by being retired while no active assignment is bound to it |
| VoiceService.VoiceTables.CreateVersion | apps/api/src/voice/voice.service.ts:220-317 | Consent, source and numbering checks in order; one CreateVersion of the machine |
| VoiceService.VoiceTables.ApproveVersion | apps/api/src/voice/voice.service.ts:328-381 | Approval, rejection and their refusals; the active number moves only up |
| VoiceService.VoiceTables.LockVersion | apps/api/src/voice/voice.service.ts:383-404 | Locks a version in production; locking twice is harmless |
| VoiceService.VoiceTables.RetireVersion | apps/api/src/voice/voice.service.ts:406-426 | Refused while an active assignment uses the version |
| VoiceService.VoiceTables.AssignVoice | apps/api/src/voice/voice.service.ts:588-692 | The checks in order and the swap of assignments; one Assign of the machine |
| VoiceService.VoiceTables.ClearVoice | apps/api/src/voice/voice.service.ts:694-724 | Clears the active assignment unless locked chunks are bound to it |
| Casting.GetCastingState | apps/api/src/voice/voice.service.ts:728-780 | Blocks exactly the speaking characters without an approved assignment, each with its reason, and counts them |
| Casting.BuildCastingIndex | apps/web/src/lib/casting.ts:63-66 | The client's index holds for each blocked character the reason of its last entry |
| Casting.StatusIs | apps/web/src/lib/casting.ts:67-79 | A speaking character shows as ready exactly without a blocking entry, otherwise by the reason of its last one |
| Casting.ClientAgrees | apps/web/src/lib/casting.ts:67-79 | In every reachable state a speaking character shows as ready exactly when it is merged or has an active assignment, and as without a voice otherwise; a silent one needs none, and nothing is known before the answer is there |
| Casting.ReadyIffAllVoiced | apps/api/src/voice/voice.service.ts:771-779 | In every reachable state generation is ready exactly when every speaking, unmerged character has an active assignment |
| Casting.AssignedAreApproved | apps/api/src/voice/voice.service.ts:745-779 | In every reachable state the assigned and the approved count agree |
| Aliases.OverlapIffShared | apps/api/src/analysis/analysis.service.ts:1101-1112 | The overlap test is sound for all ranges, open and reversed, and exact when neither range is reversed |
| Aliases.ResolvesToOne | apps/api/src/analysis/analysis.service.ts:470-522 | In every reachable state a form in a scope stands for at most one character at every position |
| Aliases.RefusedIffCollides | apps/api/src/analysis/analysis.service.ts:566-589 | A creation is refused exactly when it would give some position two characters, or when a range of another character covers both ends of a reversed one |
| Aliases.CreateResolves | apps/api/src/analysis/analysis.service.ts:470-522 | A creation adds its character to what its form stands for, in exactly its scope and range, and changes nothing else |
| Aliases.DeleteIff | apps/api/src/analysis/analysis.service.ts:552-564 | A deletion takes the character's own alias and no other, and is refused for any other id |
| Aliases.MergeMovesAll | apps/api/src/analysis/analysis.service.ts:619-629 | A merge moves every alias of the loser to the winner, touches no other and loses none |
| Aliases.MergeIff | apps/api/src/analysis/analysis.service.ts:593-636 | Which merges and splits are refused, each under its exact condition; the status of the loser is the only one that changes |
| Aliases.MergeRenames | apps/api/src/analysis/analysis.service.ts:619-629 | What a form resolves to after a merge is what it resolved to before, the loser renamed |
| Aliases.SplitRestoresIff | apps/api/src/analysis/analysis.service.ts:630-636 | A split after a merge restores the aliases if and only if the loser had none or merged into itself |
| AnalysisService.AliasTables.FindAliasConflict | apps/api/src/analysis/analysis.service.ts:566-589 | Finds a conflicting alias of another character if and only if there is one |
| AnalysisService.AliasTables.CreateCharacterAlias | apps/api/src/analysis/analysis.service.ts:470-522 | Scope defaults, conflict check and insert: one CreateAlias of the machine |
| AnalysisService.AliasTables.DeleteCharacterAlias | apps/api/src/analysis/analysis.service.ts:552-564 | Removes one alias of that character, or reports it missing |
| AnalysisService.AliasTables.CreateCharacterMerge | apps/api/src/analysis/analysis.service.ts:593-684 | The checks in order, the move and its count, and the status of the loser |
| Assembly.StartAssembly | apps/api/src/assembly/assembly.service.ts:84-259 | The loops compute the plan and the errors in order (`Assembly.StartIsRefusedIff`, `Assembly.StartedIsThePlan`); the jobs of accepted chapters are created together or not at all |
| Assembly.StartIsRefusedIff | apps/api/src/assembly/assembly.service.ts:89-157 | Each refusal under its exact condition: no chapters, incomplete ones without leave for a partial preview, mixed Director versions, missing metadata |
| Assembly.StartedIsThePlan | apps/api/src/assembly/assembly.service.ts:159-183 | A started request blocks exactly the incomplete targets, skips the up-to-date ones unless forced, and accepts the others under their present hash and no live key |
| Assembly.EachTargetOnce | apps/api/src/assembly/assembly.service.ts:110-183 | Accepted, skipped and blocking are disjoint and cover exactly the targets, each for its own reason |
| Assembly.NothingTwice | apps/api/src/assembly/assembly.service.ts:165-183 | As many entries as targets, and each accepted chapter carries its present manifest hash |
| Assembly.StartedIsUniform | apps/api/src/assembly/assembly.service.ts:133-143 | Every chunk of an accepted or skipped chapter is VALIDATED and of one Director version |
| Assembly.AcceptsNoneIff | apps/api/src/assembly/assembly.service.ts:159-183 | An unforced start accepts none if and only if every complete target has a current audio of its manifest |
| Assembly.RepeatAcceptsNone | apps/api/src/assembly/assembly.service.ts:159-183 | Once the accepted chapters carry the planned hash, an unforced repeat accepts none and skips every complete target |
| Assembly.ForcedRepeatIff | apps/api/src/assembly/assembly.service.ts:198-246 | While the keys of its jobs are live, a forced repeat fails exactly when some target is complete |
| Assembly.StartedAudiobookReadyIff | apps/worker-cpu/src/processors/assembly-shared.ts:144-168 | When the API starts the audiobook itself, every target is up to date, and the book is ready exactly when all their audios are ASSEMBLED |
| Assembly.ReadyIff | apps/worker-cpu/src/processors/assembly-shared.ts:144-168 | Ready if and only if there is a version with a chapter and every chapter has a current ASSEMBLED audio |
| Assembly.ManifestTextInjective | apps/worker-cpu/src/processors/assembly-shared.ts:76-78 | Two manifests have the same text if and only if they list the same ids and content hashes in order |
| Assembly.SameHashIffSameAudio | apps/api/src/assembly/assembly.service.ts:168-182 | With collision-free hashing, complete chapters have equal manifest hashes if and only if their chunks in index order carry the same audio ids and content hashes: a new audio of any chunk changes the hash |
| Assembly.SortIsStable | apps/api/src/assembly/assembly.service.ts:168-170 | Sorting by index keeps every chunk, ascends, and keeps the order of equal indices |
| Assembly.AudioOfValidated | apps/api/src/assembly/assembly.service.ts:168-182 | Validated chunks give one audio each, in their places |
| Assembly.CompleteIff | apps/api/src/assembly/assembly.service.ts:110-118 | A chapter is complete exactly if it has a chunk and every one has a VALIDATED audio |
| QualityReport.CheckDuplicateParagraphs | packages/ingestion/src/quality-report.ts:71-93 | Flags exactly the chapters holding a paragraph of 40 units or more that occurs at two or more places, sorted and once each |
| QualityReport.CheckPageCoverage | packages/ingestion/src/quality-report.ts:95-118 | Reports exactly the numbers from 1 to the largest that no page has, in order |
| QualityReport.CoverageIgnoresOrder | packages/ingestion/src/quality-report.ts:95-102 | The missing pages depend neither on order nor on repeats |
| QualityReport.BuildQualityReport | packages/ingestion/src/quality-report.ts:27-46 | The outcome is the worst of the checks, and is NEEDS_REVIEW or WARN exactly for the named reasons |

## Left out

- AuthService.AuthTables.IssueSession: its two inserts are one step; a crash between them would leave a session without a token.
- Interleavings inside one service call that reads before its transaction (`refresh`, `cancelJob`, assignment and version numbering): each call is one step.
- Removal of a queued job and dead-lettering of final attempts inside BullMQ: the broker forgets a job only after a worker had it, or by the clean-up of a cancel.
- JobsService.CleanUp: the calls run one after another, not concurrently; each may still fail on its own.
- JobTheorems.NoJobLost: speaks of rows with an envelope; the child jobs of the Python workers and clean-ups record none, so no sweep finds them.
- The write that a Python worker's last child makes on its root job: the root was admitted before it had children, so it is one of the root's `Work` steps.
- JobTheorems.CancellationIsConsistent: excludes jobs whose CANCELLED status a processor wrote over, because the code lets processors write unconditionally.
- EventRuns.OpKeeps: the log grows at its end and after a bare instant's cursor; rows committed late are the subject of `EventGaps`.
- Overlapping polls of one stream, socket errors, keep-alive and lifetime timers, clock skew.
- Paging by `completed_at` and the rank cursor of characters.
- Cursor text: base64 and JSON of the payload, and its validation errors.
- CanonicalJson.TextIsCanonical: numbers are their JavaScript texts, so -0 and 0 are one number; `undefined`, functions and `toJSON` are not JSON values and are not part of this model.
- Collisions of SHA-256: equal texts stand for equal hashes.
- Jpeg.WellFormedClean: well-formed headers only; on cut-off files the walker drops a tail of fewer than four bytes at each pass.
- Totp.VerifyTotp: division of the clock is exact, not in floating point; constant-time comparison is plain equality.
- Cookies.SerializeCookie: `maxAgeSeconds` is an integer.
- VoiceService.VoiceTables.AssignVoice: whether the version speaks the book's language is a parameter; the impact figures of the answer are not modelled.
- Voice.RunKeepsInv: tenants, scopes and deleted books are not modelled; a profile is readable unless deleted.
- Generation parameters and fingerprints of voice versions, and preview jobs, which follow the job machine.
- AnalysisService.AliasTables.CreateCharacterAlias: normalization of the surface form is a parameter.
- `updateCharacterAlias`, which checks no conflict, and the database's exclusion constraint over alias ranges.
- Assembly.StartAssembly: the book's status, the job envelopes and their dispatch, and the audiobook job are not part of the contract; the target and chunk queries are inputs; the idempotency index counts every job that has not FAILED, been CANCELLED or DEAD_LETTERED.
- Assembly.StartIsRefusedIff: the refusal carries every incomplete chapter; the answer names the first 20.
- The worker's own shortcut for a manifest it assembled before but that is no longer current.
- QualityReport.BuildQualityReport: the retained share is an exact quotient, not a double, and is not printed.
- Idempotency.StuckForEver: the purge of expired keys is not part of this model, and `expiresAt` is not read by `run`.
- Two first requests under one key racing between lookup and upsert: the two are one step.
- Upload, ingestion, deletion and purge of books, cover upload sessions, downloads, mappers, guards, metrics and logging.
