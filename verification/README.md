# Logtrace: verified model

A Dafny model of four parts of Logtrace, with proofs of what they guarantee.

1. **Verification emails** (`cmd/cli/cron_scheduled_emails.go`). Pending users are read page by page, each page becomes
   a batch of jobs, and a batch runs on a bounded worker pool with retries. `WorkerPool` is a step machine: the
   dispatcher, one worker for each job, the semaphore channel, the wait group, the result channel, the counters and
   the cancellation flag. A schedule is any sequence of enabled steps, so a statement about reachable states is one
   about every interleaving. `WorkerPoolSafety`, `WorkerPoolProgress` and `WorkerPoolOrder` say what every schedule
   keeps, that every schedule ends, and when results can be attributed to users; `WorkerPoolActions` tells sends,
   counters and the way a batch returns from the actions in its schedule. `Retry` is the retry loop as code,
   `Backoff` its delays in 64-bit arithmetic, and `ScheduledEmails` the outer loop as a class, with a log of stored
   tokens and attempted emails. `MailedUsers` says who is mailed in the columns of the users table, `ChangingUsers` what
   happens to the paging when users change between pages.
2. **API keys** (`internal/datastore/postgres/api_key.go`, `server/api_key.go`, `cmd/cli/cron_api_key_revocation.go`).
   `ApiKeys` holds the table and the calls that change it, `ApiKeyRuns` what holds over every serial run.
3. **Configuration walks** (`cmd/cli/export_config.go`, `config/env.go`). `ConfigWalk` has both walks as recursive
   methods over a tree of fields, and `ConfigAgreement` says exactly when they agree. `ConfigPositions` says which leaf
   and which names stand behind each line and each binding. `ConfigPaths` says exactly when
   distinct leaves have distinct paths, `ConfigVariables` when they have distinct environment variables, and
   `ConfigTree` applies all this to the configuration that the program declares.
4. **Event listing and metrics** (`paginator.go`, `internal/datastore/postgres/event.go`). `Pagination` reads page
   numbers and computes offsets, `Events` has the filter builder and the queries, `EventPages` says what successive
   pages show, and `ActorMetrics` relates actor counts to the event count.

`Paging` (OFFSET and LIMIT over an ordered list) serves parts 1 and 4. `Wrappers`, `Int64` and `Sets` are helpers.

## What the proofs found

Where a promise fails for some inputs, the code is modelled as it is, and a lemma says for exactly which inputs the
promise holds.

- The log line for a failed email names `jobs[i]` for the i-th result received. Results arrive in completion order, so
  the names are right in every run only with one worker token, one job, or a negative retry limit
  (`WorkerPoolOrder.NamesRightExactly`). The default is five workers.
- A worker count of zero blocks the first batch for good, unless the context is cancelled
  (`WorkerPoolProgress.ProgressExactly`, `WorkerPoolActions.NoTokenNeedsCancel`).
- The backoff doubles without a cap. It is exact up to a retry limit of 34; at attempt 35 the 64-bit product overflows
  to a negative delay (`Backoff.DelaysExactly`, `Backoff.FirstOverflow`).
- Looking a key up by value does not compare its expiry with the clock. A revoked key with a delayed expiry is accepted
  until the first sweep after that expiry (`ApiKeyRuns.AcceptedUntilSwept`), and until then it counts towards the limit
  of ten although the list no longer shows it (`ApiKeyRuns.CapAndListAgree`).
- An immediate revocation after 23:00 sets an expiry that is already past (`ApiKeyRuns.RevocationWindow`). A second
  revocation moves the expiry later exactly when it comes before that expiry and its days reach further
  (`ApiKeyRuns.SecondRevokeExtendsExactly`, and over whole runs `ApiKeyRuns.RevokedTwiceExactly`).
- When users change between two pages, the pages left hold exactly the pending users who have not been read, if and only
  if those who have been and are still pending come before all others, and either all of them are still pending or nobody
  else is (`ChangingUsers.LeftIsUnreadExactly`). So a user who leaves after being read makes others be skipped over
  (`ChangingUsers.NoneMissedExactly`), and a sign-up that becomes visible late, with an earlier time, is missed while a
  user already read is read again (`ChangingUsers.LateSignUp`).
- The exporter cuts tags at a comma, skips fields without a tag and follows nested pointers; the binder does none of
  these. The walks agree exactly on the trees called `Clean` (`ConfigAgreement.WalksAgreeExactly`).
- Different sibling names without dots do not yet give distinct paths: a struct with an empty tag at the root drops its
  fields among its siblings. Paths are distinct exactly when no two fields then meet, and below the root empty tags do
  no harm (`ConfigPaths.PathsDistinctExactly`).
- Distinct paths may still become one environment variable, since a dot and an underscore become the same character.
  Sibling names keep the variables apart, whatever lies below them, exactly when no key continues that of a struct and
  no two leaves share one (`ConfigVariables.NamesApartExactly`); for a given tree the exact condition is
  `ConfigVariables.VariablesDistinctExactly`. The declared configuration is clean and its variables are distinct
  (`ConfigTree.DeclaredConfigAgrees`).
- Events are listed by `created_at` alone. If two events with the same time are on different sides of a page boundary,
  a reader of all pages may miss one of them (`EventPages.RequestsShowAllExactly`). The pending
  users of part 1 are ordered by `(created_at, id)` and do not have this problem
  (`ScheduledEmails.OffsetPagingIsStable`).
- The end-date filter stops at 23:59:59, so events in the rest of that last second are left out
  (`Events.EndFilterExactly`).
- A listing with a status, method or search filter fails, because the migrations create no such columns
  (`Events.EventRepo.ListAll`).
- A bad page number makes the page size revert to its default as well (`Pagination.SizeHonouredExactly`). Page offsets
  are exact until the row number leaves 64 bits; beyond that a far page can be page 1 again (`Pagination.OffsetExactly`,
  `Pagination.FarOffsetsWrap`).

## Model

| member | source | states |
|---|---|---|
| `WorkerPool.RunConcat` | cmd/cli/cron_scheduled_emails.go:218-247 | Running one schedule of the pool and then another is running their concatenation. |
| `WorkerPoolSafety.InitInv` | cmd/cli/cron_scheduled_emails.go:218-220 | A fresh pool satisfies the invariant, for any job count and any earlier counter values. |
| `WorkerPoolSafety.StepKeepsInv` | cmd/cli/cron_scheduled_emails.go:218-283 | Every step of dispatcher, worker or context keeps the invariant: tokens held, wait-group count, counters, results and sends each match the workers' stages. |
| `WorkerPoolSafety.ReachableInv` | cmd/cli/cron_scheduled_emails.go:218-247 | The invariant holds in every reachable state of every interleaving. |
| `WorkerPoolSafety.TokensBoundSends` | cmd/cli/cron_scheduled_emails.go:219-245 | Running sends are at most the tokens held, those at most WorkerCount and, but for one being handed out, at most the wait-group count; when wg.Wait has returned nothing is held or sending. |
| `WorkerPoolSafety.ChannelsNeverBlock` | cmd/cli/cron_scheduled_emails.go:228-241 | In every reachable state, after an early cancel too, a worker's report finds room, its release finds a token and its Done finds a positive count. |
| `WorkerPoolSafety.CountersConserve` | cmd/cli/cron_scheduled_emails.go:48-58 | Sent plus failed never exceeds what it was before the batch plus the batch, and reaches that exactly when every worker has counted. |
| `WorkerPoolSafety.CountedAtMostTotal` | cmd/cli/cron_scheduled_emails.go:155-160 | In every reachable state of a batch that begins with every earlier email counted, sent plus failed is at most the total, and equal to it when the batch returns nil. |
| `WorkerPoolSafety.RecordsGrow` | cmd/cli/cron_scheduled_emails.go:48-58 | Over any part of a schedule no counter or retry count falls and no result or attempt is taken back. |
| `WorkerPoolSafety.AttemptsBounded` | cmd/cli/cron_scheduled_emails.go:249-283 | In every reachable state RetryCount is the number of failed attempts, a job has at most MaxRetries + 1 attempts and none if that limit is negative, at most one goes through, and a job not started is never sent. |
| `WorkerPoolSafety.BatchComplete` | cmd/cli/cron_scheduled_emails.go:218-247 | When the batch returns nil the channel holds exactly one result for each job and no other, a result is a success exactly when one send of that job went through, and the counters grew by exactly these. |
| `WorkerPoolSafety.NoFailureMeansAllSent` | cmd/cli/cron_scheduled_emails.go:232-240 | A batch that returns nil without a new failure has sent every job exactly once. |
| `WorkerPoolActions.SendsAreAttempts` | cmd/cli/cron_scheduled_emails.go:249-283 | The sends of a job with an outcome are the attempts of that job with that outcome in the schedule, for every schedule from any state. |
| `WorkerPoolActions.CountersAreActions` | cmd/cli/cron_scheduled_emails.go:232-240 | Over any schedule the sent counter grows by the number of jobs that are counted and have an attempt that goes through, and the failed counter by the number of those counted without one. |
| `WorkerPoolActions.NilCountsAll` | cmd/cli/cron_scheduled_emails.go:218-247 | A schedule that ends in a nil return counts every job. |
| `WorkerPoolActions.ErrorIsSeeCancel` | cmd/cli/cron_scheduled_emails.go:222-226 | The batch returns an error if and only if its dispatcher has chosen the branch for a finished context. |
| `WorkerPoolActions.ErrorLeavesLast` | cmd/cli/cron_scheduled_emails.go:222-246 | An error return leaves at least the last job without a worker, so it is neither sent nor counted, and a batch without jobs never fails. |
| `WorkerPoolActions.SelectChoices` | cmd/cli/cron_scheduled_emails.go:222-229 | With jobs left the dispatcher can start one exactly when a token is free and leave exactly when the context is done; both may be open. |
| `WorkerPoolActions.NoTokenNeedsCancel` | cmd/cli/cron_scheduled_emails.go:218-247 | With a worker count of zero and a job to do, a batch never returns nil, and it can return an error after a cancel. |
| `WorkerPoolActions.FailureHasCause` | cmd/cli/cron_scheduled_emails.go:249-283 | With an attempt allowed, a job fails only if its schedule holds a failed attempt of that job or its wait or the limiter giving up. |
| `WorkerPoolActions.NothingFails` | cmd/cli/cron_scheduled_emails.go:218-247 | A schedule without a cancel, a failed attempt or a giving up returns nil without a new failure. |
| `WorkerPoolActions.RunningSendsBounded` | cmd/cli/cron_scheduled_emails.go:219-245 | At most WorkerCount jobs are in their retry loop at any time, and none is once the batch has returned nil. |
| `WorkerPoolProgress.StartedWorkerCanFinish` | cmd/cli/cron_scheduled_emails.go:228-241 | From any reachable state a started worker can run to its end by its own steps alone, also when the dispatcher has left. |
| `WorkerPoolProgress.ReturnIsFinal` | cmd/cli/cron_scheduled_emails.go:222-246 | After the batch function has returned, no schedule starts a further job. |
| `WorkerPoolProgress.ProgressExactly` | cmd/cli/cron_scheduled_emails.go:218-247 | No unfinished reachable state is stuck if and only if WorkerCount is at least 1 or there are no jobs. |
| `WorkerPoolProgress.StepDecreases` | cmd/cli/cron_scheduled_emails.go:218-283 | Every step lowers a measure made of the jobs not yet started and what workers and dispatcher still have to do. |
| `WorkerPoolProgress.SchedulesBounded` | cmd/cli/cron_scheduled_emails.go:218-283 | Every schedule has at most jobs * (attempt budget + 9) + 4 steps. |
| `WorkerPoolProgress.MaximalSchedulesEnd` | cmd/cli/cron_scheduled_emails.go:218-247 | With a token, a schedule that cannot be carried on has ended: the dispatcher has returned and every started job is finished, and without a cancel it has returned nil. |
| `WorkerPoolOrder.OneTokenNamesRight` | cmd/cli/cron_scheduled_emails.go:162-169 | With one worker token results arrive in job order, so the i-th result is that of job i. |
| `WorkerPoolOrder.CanComplete` | cmd/cli/cron_scheduled_emails.go:218-247 | A batch that is not cancelled can always be carried on until it returns nil. |
| `WorkerPoolOrder.AllAttemptsFail` | cmd/cli/cron_scheduled_emails.go:249-283 | A started job whose sends all fail can use up its retries, MaxRetries + 1 failures, and return an error without a cancel. |
| `WorkerPoolOrder.AttemptsAttained` | cmd/cli/cron_scheduled_emails.go:251 | Some reachable state has exactly MaxRetries + 1 failed attempts of one job, so the bound on attempts is met. |
| `WorkerPoolOrder.OvertakingMisnames` | cmd/cli/cron_scheduled_emails.go:162-169 | With two tokens, two jobs and one attempt some complete run, without a cancel, reports a failure under the wrong job. |
| `WorkerPoolOrder.NamesRightExactly` | cmd/cli/cron_scheduled_emails.go:162-169 | Failures are named right in every complete run if and only if there is at most one token, at most one job, or no attempt. |
| `Backoff.DelayExactly` | cmd/cli/cron_scheduled_emails.go:253 | The delay before an attempt is 2^(attempt-1) seconds if and only if the attempt is at most number 34. |
| `Backoff.DelaysExactly` | cmd/cli/cron_scheduled_emails.go:251-256 | All delays of a run are exact if and only if MaxRetries is at most 34. |
| `Backoff.FirstOverflow` | cmd/cli/cron_scheduled_emails.go:253 | In nanoseconds: the first delay, the last exact one, and the first that overflows, which is negative. |
| `Backoff.TotalDelay` | cmd/cli/cron_scheduled_emails.go:251-256 | The first k delays add up to 2^k - 1 seconds. |
| `Retry.EmailJob.constructor` | cmd/cli/cron_scheduled_emails.go:211-215 | A new job is for its recipient and token and has not been retried. |
| `Retry.ProcessEmailWithRetry` | cmd/cli/cron_scheduled_emails.go:249-283 | The loop gives up if and only if attempts 0 to MaxRetries are all made and fail, after MaxRetries + 1 sends; it succeeds if and only if some attempt in that range is the first that goes through with every earlier one made and failed, and then makes no further send. RetryCount grows by the failed sends, the other results say what ended the loop, each result fixes how many delays were requested, and up to 34 of them total 2^k - 1 seconds. |
| `Retry.LoopInFields` | cmd/cli/cron_scheduled_emails.go:249-283 | The number at which the loop ends, told by the answers of wait, limiter and send alone. |
| `Retry.LoopRunsInPool` | cmd/cli/cron_scheduled_emails.go:232-260 | For every behaviour of the outside, the retry loop is a feasible series of pool steps that ends with the loop's result and number of failures, and changes nothing but worker, retry count and send log. |
| `Retry.PoolRunsAreLoops` | cmd/cli/cron_scheduled_emails.go:228-241 | In any interleaving, the retry steps of a worker that has returned are a run of the retry loop. |
| `ScheduledEmails.SelectionUnique` | cmd/cli/cron_scheduled_emails.go:119-122 | Two lists with the same users in (created_at, id) order are equal. |
| `ScheduledEmails.OffsetPagingIsStable` | cmd/cli/cron_scheduled_emails.go:115-128 | While the table is unchanged, all page queries cut from one list in which no user occurs twice. |
| `Paging.Slice` | cmd/cli/cron_scheduled_emails.go:123-124 | A page has at most the limit's rows and is empty exactly past the end. |
| `Paging.PagesRead` | cmd/cli/cron_scheduled_emails.go:134-173 | Reading on while rows are left takes ceil(n / size) pages. |
| `Paging.NextPage` | cmd/cli/cron_scheduled_emails.go:134-173 | A page read where the previous ones end is either empty with everything read, or carries on to the start of the next page. |
| `ScheduledEmails.TokensBeforeSendsByPosition` | cmd/cli/cron_scheduled_emails.go:146-216 | In a well-ordered log the token of each attempt is stored before it for the same user, and all tokens of a batch are stored before its first attempt. |
| `ScheduledEmails.EmailProcessor.constructor` | cmd/cli/cron_scheduled_emails.go:101-113 | A new processor has zero counters and no effects. |
| `ScheduledEmails.EmailProcessor.CreateEmailJobs` | cmd/cli/cron_scheduled_emails.go:183-216 | Either one fresh job for each user, in order, each with the token stored for that user, or the first user who cannot be built stops it and the tokens stored so far stay. |
| `ScheduledEmails.ScheduleEnds` | cmd/cli/cron_scheduled_emails.go:222-246 | A schedule leads to a reachable state, and to an error return only through a cancel. |
| `ScheduledEmails.EmailProcessor.ProcessEmailBatch` | cmd/cli/cron_scheduled_emails.go:218-247 | For every schedule: the attempts of each user and outcome are those in the schedule, with the job's token and within MaxRetries; the counters grow by the jobs that the schedule counts as sent and as failed; RetryCount of each job is its failed attempts; the return is nil if and only if the schedule never takes the branch for a finished context, and then every job is counted and has one result, while an error leaves the last job unsent and uncounted. If nothing goes wrong outside, it returns nil without a failure. |
| `ScheduledEmails.BatchTold` | cmd/cli/cron_scheduled_emails.go:218-247 | The events, counters and return of a batch as functions of the actions in its schedule. |
| `ScheduledEmails.EmailProcessor.DrainResults` | cmd/cli/cron_scheduled_emails.go:162-169 | The drain takes every result and logs one line for each failure, under the job of the same position. |
| `ScheduledEmails.EmailProcessor.RunPage` | cmd/cli/cron_scheduled_emails.go:153-172 | A built page: attempts and return as the schedule has them, the total grown by the page, one logged failure for each user without a sent email, and the last user noted. |
| `ScheduledEmails.FailedUsersOfPage` | cmd/cli/cron_scheduled_emails.go:162-172 | A page adds its users without a sent email and leaves those of earlier pages as they were. |
| `ScheduledEmails.NamesAreFailures` | cmd/cli/cron_scheduled_emails.go:162-169 | When names are right, the failure log lists the failed users and no others. |
| `ScheduledEmails.EmailProcessor.ProcessPage` | cmd/cli/cron_scheduled_emails.go:146-172 | Building fails if and only if some user of the page cannot be built; otherwise the attempts are those of the schedule and the page is interrupted if and only if the schedule takes the branch for a finished context. The effects, the counters and the failure log for each of the three ends; the branch for an empty job list is never taken. |
| `ScheduledEmails.EmailProcessor.ProcessPendingUsers` | cmd/cli/cron_scheduled_emails.go:130-181 | For every outside: however the run ends, sent + failed is at most total, users are reached in order and once, tokens precede sends, attempts stay in budget, and each user of a batch that ran has just the attempts that the schedule of that batch gives its job. If it reads everything, total = sent + failed = the pending users after ceil(n / BatchSize) + 1 fetches, failed is the number of users without a sent email, and it succeeds only if all were sent, each exactly once. If every query answers, every job can be built and no schedule leaves early, it does read everything; if besides nothing goes wrong in a schedule, it succeeds. Each failure verdict names its cause: the query at that offset, the first user whose job could not be built, or a cancel in the schedule of that very batch, which then is the only one not fully counted. Where names are known to be right, the failure log lists exactly the users without a sent email, in order. |
| `ScheduledEmails.ScheduledPage` | cmd/cli/cron_scheduled_emails.go:134-173 | A page that has run extends what is known of the attempts to its users: each has those its batch's schedule gives its job. |
| `MailedUsers.PendingInFields` | cmd/cli/cron_scheduled_emails.go:115-122 | The list paged through holds exactly the table's users that are not deleted, not verified and of status pending, the oldest first and by id among equals. |
| `MailedUsers.OnlyPendingMailed` | cmd/cli/cron_scheduled_emails.go:115-216 | Whoever gets a token stored or an email attempted in a run is such a user. |
| `MailedUsers.AttemptsCounted` | cmd/cli/cron_scheduled_emails.go:249-283 | Attempts are counted by the places in the log. |
| `MailedUsers.FailedUsersExactly` | cmd/cli/cron_scheduled_emails.go:162-169 | The failed users are exactly those for whom the log holds no attempt that went through. |
| `ChangingUsers.LeftIsUnreadExactly` | cmd/cli/cron_scheduled_emails.go:115-173 | Whatever has changed since the users before the offset were read: the pages left hold exactly the unread pending users if and only if those read and still pending come before all others, and all of them are still pending or nobody else is. |
| `ChangingUsers.NoneMissedExactly` | cmd/cli/cron_scheduled_emails.go:115-173 | If every unread pending user comes after all who have been read, nobody is read again, and nobody is missed if and only if all of them are still pending or nobody else is. |
| `ChangingUsers.LateSignUp` | cmd/cli/cron_scheduled_emails.go:115-173 | A user who turns up before all who have been read is missed, and the last of these is read again. |
| `ApiKeys.ApiKeyRepo.constructor` | internal/datastore/postgres/api_key.go:18-22 | The table starts empty. |
| `ApiKeys.ApiKeyRepo.Create` | internal/datastore/postgres/api_key.go:69-90 | Insert, count and roll back does what "reject at ten live keys, else insert" does: a new live key goes in if and only if fewer than ten rows of its organization are not deleted, and a failed call leaves the table as it was. |
| `ApiKeys.ApiKeyRepo.Revoke` | internal/datastore/postgres/api_key.go:92-113 | Only a live row with that id changes: it keeps its identity and last use, gets the time of update, an expiry 1, 2 or 8 days less an hour after the last midnight, and only an immediate revocation deletes it, at that time. |
| `ApiKeys.ApiKeyRepo.DeleteExpired` | cmd/cli/cron_api_key_revocation.go:63-68 | No row is removed; exactly the live rows whose expiry has passed get the time of deletion, every other row and field is unchanged, and no live key is then overdue. |
| `ApiKeys.ApiKeyRepo.UpdateLastUsedAt` | internal/datastore/postgres/api_key.go:136-146 | Only the last use of that key can change, to the given time, and only if it is live. |
| `ApiKeys.ApiKeyRepo.FetchByValue` | internal/datastore/postgres/api_key.go:24-38 | Finds a live key with the value, and none only if there is none; expiry plays no part. |
| `ApiKeys.ApiKeyRepo.FetchByName` | internal/datastore/postgres/api_key.go:115-128 | Finds a live key of the organization by name if and only if the name is taken. |
| `ApiKeys.ApiKeyRepo.List` | internal/datastore/postgres/api_key.go:61-67 | The organization's live keys that are not revoked at that time. |
| `ApiKeys.ApiKeyRepo.HandleCreate` | server/api_key.go:77-112 | The table changes if and only if the answer is OK, and then it has one new row with that organization, name and value, without expiry, deletion or last use, and all others as they were; a name error means the name is taken, and a limit error means that it is free but ten keys are live. |
| `ApiKeys.ApiKeyRepo.HandleRevoke` | server/api_key.go:188-251 | Each of the four refusals is given exactly in its case: an invalid strategy, no live key, another organization, an expiry already past; otherwise the answer is OK and only that key is revoked, column by column. A refusal leaves the table unchanged. |
| `ApiKeyRuns.CapHolds` | internal/datastore/postgres/api_key.go:69-90 | Over every serial run no organization has more than ten live keys. |
| `ApiKeyRuns.NamesStayUnique` | server/api_key.go:77-97 | Over every serial run live key names stay unique in each organization. |
| `ApiKeyRuns.KeysMoveForward` | internal/datastore/postgres/api_key.go:92-146 | Over every run a key keeps its identity and only moves on through active, expiring and deleted; an expiry is never cleared and a deleted row never changes. |
| `ApiKeyRuns.CreatedKeyLives` | server/api_key.go:77-112 | With an unused id and a free name a creation adds a key if and only if fewer than ten are live; over every run in which nobody revokes it, the key keeps the values asked for and stays accepted, and only its last use follows the run. |
| `ApiKeyRuns.UnrevokedKeyStays` | internal/datastore/postgres/api_key.go:24-38 | A live key without an expiry that nobody revokes changes in no run but for its last use. |
| `ApiKeyRuns.RevocationWindow` | internal/datastore/postgres/api_key.go:99-107 | For every instant of the day: how far ahead each revocation sets the expiry, and that only an immediate one in the last hour sets one already past. |
| `ApiKeyRuns.SecondRevokeExtendsExactly` | internal/datastore/postgres/api_key.go:92-113 | A second revocation before the expiry moves it later if and only if its days reach further; a week after a day always does, an immediate one never. |
| `ApiKeyRuns.RevokedTwiceExactly` | server/api_key.go:242-251 | The same over a whole run through the handler, with any steps between the two calls. |
| `ApiKeyRuns.SweepsAreThorough` | cmd/cli/cron_api_key_revocation.go:63-68 | In every reachable state each live key has no expiry or one not before the last sweep. |
| `ApiKeyRuns.AcceptedUntilSwept` | internal/datastore/postgres/api_key.go:24-38 | A key with an expiry that is not revoked again stays accepted if and only if no sweep has run after that expiry. |
| `ApiKeyRuns.RevocationGrace` | internal/datastore/postgres/api_key.go:103-106 | After a day or week revocation the key is accepted for 23 or 167 hours in any run, and gone after a sweep more than a day later. |
| `ApiKeyRuns.ImmediateIsFinal` | internal/datastore/postgres/api_key.go:100-102 | After an immediate revocation the key is deleted at once and its row never changes again. |
| `ApiKeyRuns.CapAndListAgree` | internal/datastore/postgres/api_key.go:61-84 | The number of listed keys is the number counted towards the limit if and only if no live key of the organization is past its expiry. |
| `ConfigWalk.EnvFile.constructor` | cmd/cli/export_config.go:48 | The builder starts empty. |
| `ConfigWalk.EnvFile.WalkStruct` | cmd/cli/export_config.go:47-108 | Appends one line for each leaf that the export reaches, in depth-first order; `ConfigPositions.ExportedFile` says which leaves, names and values these are. |
| `ConfigWalk.Viper.constructor` | config/env.go:128 | No variable is bound at the start. |
| `ConfigWalk.Viper.BindEnvs` | config/env.go:139-172 | Adds one binding for each leaf that the binder reaches, in depth-first order. |
| `ConfigWalk.LinesConcat` | cmd/cli/export_config.go:49-57 | The lines of two runs of visits are the lines of their concatenation. |
| `ConfigAgreement.PlainNames` | cmd/cli/export_config.go:77-81 | Among exported fields both walks use the same name exactly for plain tags. |
| `ConfigAgreement.WalksAgreeExactly` | config/env.go:139-172 | The two walks make the same visits in the same order if and only if the tree is clean, for every tree. |
| `ConfigAgreement.FieldsAgreeExactly` | cmd/cli/export_config.go:73-106 | The same for one field: pointers to structs, missing, empty, skipped and comma tags each break agreement unless no leaf lies below. |
| `ConfigAgreement.CleanTreesAgree` | cmd/cli/export_config.go:47-62 | For a clean tree the exported file is one line for each binding, in the same order, with the bound variable's name; `ConfigPositions.CleanFileHoldsValues` adds the values. |
| `ConfigPositions.ExportedExactly` | cmd/cli/export_config.go:47-108 | The export visits a position if and only if it leads, through pointers and exported fields, to a scalar or a nil pointer, and then with the joined names on the way and that scalar's text, or `<nil>`. |
| `ConfigPositions.ExportInOrder` | cmd/cli/export_config.go:64-108 | The visits come in order of position, so no position twice. |
| `ConfigPositions.ExportedFile` | cmd/cli/export_config.go:47-108 | The exported file is one line for each such position, in order: the variable of the path, an equals sign and the text of the leaf there. |
| `ConfigPositions.BoundExactly` | config/env.go:139-172 | The binder binds a position if and only if it leads through direct structs to a field that is not a struct itself, with the joined names on the way. |
| `ConfigPositions.BindInOrder` | config/env.go:139-172 | Bindings come in order of position too. |
| `ConfigPositions.VariableInCharacters` | config/env.go:165-166 | A variable is LOGTRACE_ and then the path with dots as underscores, lower-case letters as upper-case ones and every other character kept. |
| `ConfigPositions.CleanFileHoldsValues` | cmd/cli/export_config.go:47-62 | For a clean tree each bound variable has a line that ends with the text of its own field. |
| `ConfigPaths.VisitTexts` | config/env.go:139-172 | The spelled paths of the binding walk are the names on the way to each leaf, joined. |
| `ConfigPaths.HoistedTexts` | config/env.go:157-160 | The fields of a root struct with an empty tag are visited as if they stood at the root. |
| `ConfigPaths.OverlapExactly` | config/env.go:157-166 | Two fields hold leaves with the same text if and only if they overlap, name by name. |
| `ConfigPaths.TextsDistinctExactly` | config/env.go:139-172 | For every tree, distinct leaves have distinct paths, or distinct variables, if and only if no two siblings overlap in that spelling after hoisting. |
| `ConfigPaths.MeetExactly` | config/env.go:157-160 | For names without dots, overlap of paths means the same names all the way down. |
| `ConfigPaths.PathsDistinctExactly` | config/env.go:139-172 | For trees with different, dot-free sibling names, paths are distinct if and only if no two fields meet at the root after hoisting; below a prefix they always are. |
| `ConfigPaths.PathsDistinct` | config/env.go:139-172 | So they are distinct at every depth when no root struct has an empty tag. |
| `ConfigPaths.EmptyTagCollides` | config/env.go:151-160 | A root leaf and an equally named leaf in a root struct with an empty tag always get one path. |
| `ConfigVariables.VariablesDistinct` | config/env.go:165-166 | Well-named trees whose sibling names are apart at every level give distinct leaves distinct variables. |
| `ConfigVariables.VariablesDistinctExactly` | config/env.go:165-166 | For every well-named tree, variables are distinct if and only if no two siblings overlap in the variables' spelling. |
| `ConfigVariables.NamesApartExactly` | config/env.go:165-166 | For the names of one level: variables are distinct under all well-named contents that are apart within themselves, if and only if the names are apart. |
| `ConfigVariables.ClashingOverlaps` | config/env.go:165-166 | For two sibling names that are not apart, contents under which their variables are equal. |
| `ConfigVariables.VariablesCanCollide` | config/env.go:165-166 | For any three names, the well-named tree m{s_t}, m_s{t} has distinct paths and one variable for both leaves. |
| `ConfigTree.SoundTree` | config/env.go:139-172 | A tree with sound tags is clean, well named and apart at every level, whatever its values. |
| `ConfigTree.DeclaredConfigAgrees` | config/config.go:15-137 | For every value of the declared configuration the walks agree, and distinct settings have distinct paths and variables. |
| `Int64.Wrap64` | paginator.go:33 | The value of an int64 operation is in range, and is the exact result when that fits. |
| `Int64.Wrap64Exactly` | paginator.go:33 | It is the only value in range that differs from the exact result by a multiple of 2^64. |
| `Pagination.AtoiItoa` | paginator.go:48-49 | A number that fits reads back from its decimal text. |
| `Pagination.AtoiSigned` | paginator.go:48-49 | A sign is read, and a number outside 64 bits is refused. |
| `Pagination.AtoiFails` | paginator.go:48-49 | Without a digit, or with another character behind the first place, there is no number. |
| `Pagination.SpaceCodes` | paginator.go:43-45 | The code points that count as white space. |
| `Pagination.PaginatorFromRequest` | paginator.go:36-73 | For every query string page and size are at least 1 and fit. Page 1 and size 20 are the defaults; a bad page gives both; a good page counts whatever the size, and a good size counts unless the page is bad. |
| `Pagination.RequestRoundTrip` | paginator.go:36-73 | A page number and size written in decimal come back as they were. |
| `Pagination.SizeHonouredExactly` | paginator.go:44-70 | A positive size takes effect if and only if the page parameter is blank or a positive number. |
| `Pagination.OffsetExactly` | paginator.go:28-34 | The offset is the number of rows before the page if and only if that number fits a signed 64-bit integer, and then it is not negative. |
| `Pagination.PagesAbut` | paginator.go:28-34 | Page k + 1 starts exactly where page k ends while offsets fit. |
| `Pagination.FarOffsetsWrap` | paginator.go:33 | Beyond that an offset can be zero or negative. |
| `Events.EventRepo.constructor` | internal/datastore/postgres/event.go:19-23 | The table starts empty. |
| `Events.EventRepo.Create` | internal/datastore/postgres/event.go:25-35 | One event is added at the end. |
| `Events.EventRepo.BuildQuery` | internal/datastore/postgres/event.go:68-130 | The built filter contains a condition if and only if the options ask for it. |
| `Events.AskedMeans` | internal/datastore/postgres/event.go:68-130 | Such a filter can be answered exactly for servable options, and then a row meets it if and only if it passes every filter that is not blank. |
| `Events.NoRequestColumns` | internal/datastore/postgres/migrations/20260206095710_events.up.sql:1-14 | The table has no status and no method column. |
| `Events.SelectMatches` | internal/datastore/postgres/event.go:132-151 | Two queries built from the same options select the same live events. |
| `Events.MatchingExactly` | internal/datastore/postgres/event.go:68-151 | The selected events are exactly the live rows that pass the filters, as often as they are in the table. |
| `Events.MatchingInFields` | internal/datastore/postgres/event.go:68-138 | The number of matching events by columns: live, each filter that is not blank met, and created between the first instant of the start date and 23:59:59 of the end date. |
| `Events.EndFilterExactly` | internal/datastore/postgres/event.go:97-115 | Whatever the start date, an end date passes an event up to that day's end if and only if it is not after the start of the day's last second. |
| `Events.EventRepo.ListAll` | internal/datastore/postgres/event.go:61-159 | Succeeds exactly without a status, method or search filter, with dates that can be read, when no query fails. Then the total counts the live rows that pass the filters, column by column, and the page is the paginator's cut of an ordering of the same events, the newest first; a failure returns nothing. |
| `EventPages.CutDetermined` | internal/datastore/postgres/event.go:147-151 | If no tie spans a cut, the events before it are the same in every order by time. |
| `EventPages.OneOrderTiles` | internal/datastore/postgres/event.go:147-151 | With one fixed order successive pages are that list cut into pieces, without gap or repeat. |
| `EventPages.LengthsAddUp` | internal/datastore/postgres/event.go:136-151 | Page lengths add up to the rows read so far, however ties are broken. |
| `EventPages.TotalIsPageLengths` | internal/datastore/postgres/event.go:136-158 | All page lengths add up to the number of rows, and with one order for all queries the pages make up that order. |
| `EventPages.TieLosesAnEvent` | internal/datastore/postgres/event.go:147-151 | For a tie across a page boundary there are lawful orders under which an event is on no page. |
| `EventPages.PagesTileExactly` | internal/datastore/postgres/event.go:147-151 | Reading all pages shows every event exactly once under every choice of orders if and only if no tie crosses a page boundary. |
| `EventPages.ListingShowsAllExactly` | internal/datastore/postgres/event.go:61-159 | The same for the events that a listing is about. |
| `EventPages.ReadAllIsPages` | internal/datastore/postgres/event.go:61-159 | Requests for pages 1, 2, ... return together the pages cut from the orders that their queries picked. |
| `EventPages.RequestReturnsPage` | internal/datastore/postgres/event.go:147-151 | A request returns the page at its place in the order its query picked, as long as the offset fits. |
| `EventPages.ReturnedTotals` | internal/datastore/postgres/event.go:136-158 | The total returned with each page is the number of events that all requests return together. |
| `EventPages.RequestsShowAllExactly` | internal/datastore/postgres/event.go:61-159 | End to end: the requests for all pages of a listing return each matching event exactly once, under every behaviour of the database, if and only if no tie crosses a page boundary. |
| `Events.EventRepo.Metrics` | internal/datastore/postgres/event.go:161-187 | The number of places in the table that hold a live event of the organization created no more than 24 * 3600 seconds ago. |
| `Events.RecentExactly` | internal/datastore/postgres/event.go:168-175 | The counted events are exactly the live rows of the organization in the window, as often as they are in the table. |
| `Events.EventRepo.TopActorMetrics` | internal/datastore/postgres/event.go:189-216 | At most five different actors, in non-increasing order, and no actor left out has more events than one listed. Each count is the number of recent rows with that username, if not empty, or without one and with that user id; with fewer than five listed every recent row's actor is among them. |
| `Events.TallyInFields` | internal/datastore/postgres/event.go:201-208 | The size of a group by the columns username and user_id. |
| `Events.LeadersInFields` | internal/datastore/postgres/event.go:189-216 | The same for every leader of a ranking, and fewer than five leaders are all actors. |
| `Events.LeadersAreTop` | internal/datastore/postgres/event.go:201-209 | The first five of any ranking by count are such a list. |
| `ActorMetrics.TalliesCover` | internal/datastore/postgres/event.go:201-208 | The counts of different actors add up to the number of events of those actors. |
| `ActorMetrics.TopActorsAddUp` | internal/datastore/postgres/event.go:161-216 | The actor counts sum to at most the event count, and to exactly it if and only if there are at most five actors. |

## Left out

- A batch size of zero or less and a negative worker count: the query library and `make` decide what happens.
- The fields LastError and LastAttempt, logging, tracing, templates, subjects, the rate limiter's timing and real timers: a wait is a step that ends or fails.
- The retry counter's own overflow for a retry limit of 2^63 - 1.
- Panics inside a send, and goroutines that are still running when the process exits.
- ScheduledEmails.EmailProcessor.ProcessPendingUsers: stated for a table that does not change while its pages are read, as the paging promises; ChangingUsers covers any change between two pages, not a whole run over changing tables.
- ScheduledEmails.EmailProcessor.ProcessPage: it is the body of the loop, split off as a method of its own.
- ScheduledEmails.EmailProcessor.RunPage: it is the second half of that body, from the total on.
- ScheduledEmails.EmailProcessor.ProcessEmailBatch: the goroutines are not Dafny threads; the method runs the step machine along a schedule taken from outside, which is any feasible one that lets the dispatcher return.
- Collisions between random tokens or key values.
- Concurrent key creation: the transaction uses default options, so the limit of ten and the unique names are proved for serial runs.
- Time zones, leap seconds and clock skew: days have 24 hours, the session is in UTC, and Go and the database read one clock.
- ApiKeys.ApiKeyRepo.HandleRevoke: the membership check, the parsing of the reference, and the all-zero identifier, for which the lookup applies no identifier filter.
- ApiKeys.ApiKeyRepo.HandleCreate: name length and sanitising, and the hashing of the value.
- ApiKeys.ApiKeyRepo.List: the order of rows, and the order in which Go evaluates the returned slice and error.
- The repository methods Update and Fetch by user, which no handler calls.
- ConfigWalk.EnvFile.WalkStruct: upper-casing of letters outside ASCII, unexported fields, and errors of the writer.
- ConfigWalk.Viper.BindEnvs: what the library does with a bound path, such as lower-casing it.
- ConfigTree.DeclaredConfigAgrees: the declared fields are transcribed, not read from the source.
- Events.EventRepo.ListAll: the text of LIKE and ILIKE patterns and HTML escaping, since the columns they need do not exist; how a date text is read is a parameter; for an offset that has wrapped to a negative number or a size of zero the page is whatever the database returns; the library's own narrowing of limit and offset.
- Events.EventRepo.BuildQuery: the status and date branches are in helper methods of their own.
- Pagination.PaginatorFromRequest: query strings that are not valid UTF-8.
- Listing of audit logs and sessions: the same pattern as the events listing.
- HTTP routing, rendering, middleware, password hashing, tokens, Google sign-in, queues and the email client's own behaviour.
- Configuration validation and default ports: single branches.
