# Verified model of the go-ledger-service

A Dafny 4.11 model of a multi-tenant payment ledger, with proofs about whole runs of its
concurrent parts. `dafny verify dfyconfig.toml` checks everything.

## What is modelled

**The worker engine** (`Ledger`, `WorkerEngine`, `WorkerRuns`, `WorkerProcess`). One tenant's
schema under any number of workers. Each SQL statement is one step of one database session:
claim with skip-locked, lock the balance row (creating it if it is missing), write the balance,
insert the entry, write the status, commit, or roll back at any point. Submissions arrive in
between. Writes stay in the session until it commits; an entry id, once drawn from the sequence,
is never given back. `Ledger` is the sequential machine that processes one whole transaction at a
time, and the interleaved engine is proved to refine it. Amounts and balances are int64: sums
wrap (`GoInt64.Wrap`), and the results that need them not to wrap carry the bound on credits
explicitly. `WorkerProcess.Schema` holds the tables as fields and has one method for each function
of the worker; a script says which steps of others fall between its statements and which
statements fail, and the contracts hold for every script.

**Idempotent submission** (`Submission`, `SubmissionRuns`, `SubmissionWindow`, `SubmissionLimits`,
`SubmissionAgreement`, `SubmissionHandler`, `ReferenceKey`). One Redis key with a deadline, the rows stored under one
tenant and reference, any number of request handlers with a program counter each, and one clock.
Every Redis command and SQL statement is one step; an insert is two, since its `created_at` is
fixed before the row becomes visible. Uniqueness comes from the protocol alone: the schema's index
on `reference` is not unique (`migrations/0002_init_tenant_schema.sql:26-27`), although a comment
at `internal/repository/ledger_transaction_repository.go:420` names a unique one.

API, database and Redis share one clock, and Redis keeps a key up to and including its deadline.
What else is asked of a run is a value of `Submission.Rules`:

- `Strict`: a handler's segment from its Begin or GET to the Set, Del or response that ends it takes
  at most the TTL (a guard on the clock), the acquirer's MarkCompleted succeeds, and a create error
  means that no row was stored. Agreement, ownership and replay rest on these.
- `Window`: only acquirers keep to the TTL, and their MarkCompleted may fail while the key outlives
  the row. This is enough for one creation per window. Agreement needs more of a failed mark: that
  a loser has marked the row already.
- `Prompt`: only acquirers keep to the TTL and anything may fail. A failure then costs no window
  but that of the row it concerns.

`SubmissionLimits`, for the window, and `SubmissionAgreement`, for agreement, show that these
conditions are exact: when a failed MarkCompleted or a hidden row is harmless, and that neither
time limit can be longer than the TTL. Their runs hold for every TTL and break the rules in one
step, which is named. A TTL is positive: the source replaces one that is not by a default.

**Rate limiting** (`RateLimiter`, `RetryAfter`). The pruned and expiring sorted set of the Lua
script, against counting over the whole admission history. Hypotheses: the time passed to the
script never decreases, Redis expires keys on the same clock, and the members of one tenant are
distinct.

**The worker runtime** (`WorkerPool`), **webhook delivery** (`Webhook`) and **ledger pages**
(`LedgerPages`).

Every SQL statement and every Redis command or script is taken to be atomic. A session that waits
for the balance row reads its committed value when the lock is granted (READ COMMITTED).

## Model

| member | source | states |
|---|---|---|
| Ledger.EvaluationExactIff | internal/worker/transaction_processor.go:153-167 | From a non-negative balance, one evaluation is exact and leaves the balance non-negative if and only if it is not a credit larger than the room left in an int64; it fails exactly for a debit above the balance |
| Ledger.ProcessIsRight | internal/worker/transaction_processor.go:31-223 | Processing a row leaves every other row alone, keeps what was submitted of this one, and either completes it, with the balance moved by its signed amount in int64 and one posting that says so, or fails it with the reason, the amount and the balance there was, and changes nothing else |
| Ledger.RefusedThenSpent | internal/worker/transaction_processor.go:153-167 | A run of a new ledger: of 10, a debit of 50 is refused with 10 available, and a debit of 10 leaves 0 |
| Ledger.CreditCanWrap | internal/worker/transaction_processor.go:155-156 | Two credits that the schema accepts, submitted to a new ledger and processed, leave the least int64 as its balance |
| Ledger.NothingWrapsIff | internal/worker/transaction_processor.go:153-167 | No order of processing the pending rows wraps or leaves a negative balance if and only if the balance and all pending credits together fit in an int64 |
| Ledger.ReplayIsFoldInCommitOrder | internal/worker/transaction_processor.go:31-99 | Interleaving submissions with processing gives the same ledger as submitting everything first and folding over the processing order |
| Ledger.RowsAreStable | internal/worker/transaction_processor.go:196-223 | A row keeps what was submitted and never changes once it is terminal |
| Ledger.ReplayStaysFunded | internal/worker/transaction_processor.go:153-167 | While balance, pending credits and credits to come fit in an int64, nothing wraps and no balance is negative |
| WorkerEngine.StepRefines | internal/worker/transaction_processor.go:31-99 | Every statement of every session keeps the lock invariant and either leaves the committed tables alone or is exactly one sequential action, although the status update has no guard |
| WorkerEngine.ClaimTakesTheFirst | internal/worker/transaction_processor.go:102-128 | A claim takes, of the pending rows that no session holds, the one created first, and of those the one with the least id |
| WorkerEngine.SubmissionsAreFree | internal/repository/ledger_transaction_repository.go:325-408 | Every row that the schema admits can be inserted as pending at any time |
| WorkerRuns.FreshTenantIsSound | migrations/0002_init_tenant_schema.sql:29-37 | A new schema, with or without its balance row, starts with its books in order |
| WorkerRuns.Serializable | internal/worker/transaction_processor.go:31-99 | Balance, entries and statuses after any run are those of the one-at-a-time fold in commit order, with no transaction in it twice |
| WorkerRuns.LedgerChain | internal/worker/transaction_processor.go:130-194 | In id order the entries form a chain from the opening balance to the balance row, despite id gaps and despite racing creation of the balance row |
| WorkerRuns.ExactlyOnce | internal/worker/transaction_processor.go:43-74 | Every transaction, there from the start or submitted during the run, keeps what was submitted, leaves pending at most once, and has exactly one entry, with its reference and signed amount, if and only if it is completed |
| WorkerRuns.OutcomesFitTheBalance | internal/worker/transaction_processor.go:71-73 | The k-th transaction committed is settled against the balance after the entries committed before it: a refused debit stores exactly that balance as available |
| WorkerRuns.RollbackRestores | internal/worker/transaction_processor.go:43-45 | A rollback after any statement publishes nothing and makes the row claimable again |
| WorkerRuns.NoOverdrawNoOverflow | internal/worker/transaction_processor.go:153-194 | Under the bound on credits, in every state of the run, no balance is negative and neither a committed entry nor a decision that a session has in hand has wrapped, whether it is committed later or rolled back |
| WorkerRuns.MoneyIsConserved | internal/worker/transaction_processor.go:169-194 | Under the same bound the balance is the opening balance plus all changes posted |
| WorkerRuns.NeverDeadlocked | internal/worker/transaction_processor.go:47-74 | Whenever a worker is inside a transaction, some worker inside one can execute its next statement |
| WorkerRuns.SchedulesEnd | internal/worker/transaction_processor.go:31-99 | Without submissions a schedule takes at most eight steps for each pending row and each rollback |
| WorkerRuns.MovesUntilDone | internal/worker/transaction_processor.go:47-74 | A schedule can always go on while a row is pending or a worker is inside a transaction |
| WorkerRuns.BoundedOvertaking | internal/worker/transaction_processor.go:102-128 | A claim passes over fewer pending rows that come before it by (created_at, id) than there are workers, each held by another worker |
| WorkerRuns.SingleWorkerIsFifo | internal/worker/transaction_processor.go:102-128 | One worker without rollbacks, with arrivals younger than what is there, processes in ascending (created_at, id) order and passes over no row that waits |
| WorkerProcess.Schema.ClaimPendingTransaction | internal/worker/transaction_processor.go:102-128 | Whatever others do before it, the call claims the row that is next in line at that moment, or reports none only when no row is claimable |
| WorkerProcess.Schema.LockCurrentBalance | internal/worker/transaction_processor.go:130-151 | On success the session holds the balance row, created on the way if need be; it commits nothing, and it fails only if a statement fails or another session holds the row |
| WorkerProcess.Schema.ApplyCompletedTransaction | internal/worker/transaction_processor.go:169-194 | It succeeds if and only if neither statement fails, and then balance and entry are written in the session, and nothing is committed |
| WorkerProcess.Schema.ProcessNextPendingTransaction | internal/worker/transaction_processor.go:31-100 | Whatever others do and wherever it fails, the worker ends idle; a returned transaction is the only one committed, by the last step, with the status returned and the tables of a ledger with that row processed; otherwise nothing was committed, unless the reply to the commit was lost; it reports nothing pending only if no row is claimable; it fails whenever a statement it executes fails, and else only while another session holds the balance row; undisturbed, it performs the sequential step on the row that was next in line |
| SubmissionWindow.OneCreationPerWindow | internal/http/ledger_api.go:321-409 | While acquirers keep to the TTL, however long losers take and even if marks fail for rows that the key outlives, any two rows created under one reference are more than the TTL apart |
| SubmissionWindow.FailuresLoseOnlyTheirRow | internal/http/ledger_api.go:384-406 | Whatever fails, a row is followed by another within the TTL only if a create error hid it or its own mark failed while the key did not outlive it |
| SubmissionWindow.WindowHandover | internal/http/ledger_api.go:536-553 | When Begin acquires, every existing row fails the age test, then and at every later time |
| SubmissionWindow.LookupFindsLastRow | internal/repository/ledger_transaction_repository.go:128-160 | The newest row by (created_at, id) is the last one stored |
| Submission.NewestByTimeAndId | internal/repository/ledger_transaction_repository.go:155-156 | The row looked up is the one with the latest creation time and, of those, the greatest id |
| SubmissionRuns.Agreement | internal/http/ledger_api.go:334-357 | Between two acquisitions every 202 response names the only row created in between |
| SubmissionRuns.CompletedNamesNewest | internal/http/ledger_api.go:461-483 | A stored completed record names the row that the lookup by reference returns |
| SubmissionRuns.Ownership | internal/idempotency/redis_reference_store.go:154-192 | From Begin to Mark or Clear the key is live, it is the request's own pending record or names its own row, and no other request is in that position |
| SubmissionRuns.LosersMarkOnlyTheirRow | internal/http/ledger_api.go:517-528 | A loser's unconditional Set finds the key live and overwrites nothing but the completed record of the row it names, or the pending record of that row's creator, which has yet to mark it |
| SubmissionRuns.LiveRecordIsReplayed | internal/http/ledger_api.go:485-500 | A GET answers if and only if a completed record is live, whatever the age of its row, with the last row stored |
| SubmissionRuns.DuplicatesAreReplayed | internal/http/ledger_api.go:485-500 | Once a row is marked, and for as long as it is within the TTL, the first GET of any other request returns it |
| SubmissionLimits.FailedMarkIsHarmlessIff | internal/http/ledger_api.go:398-406 | A mark that fails keeps the window, in all continuations, if and only if the key at that moment outlives the row; with the creator's own record still there, if and only if the row was created at the time of Begin |
| SubmissionLimits.HiddenRowIsHarmlessIff | internal/http/ledger_api.go:384-386 | A create error that hides a row always lets the window be lost through Clear; if Clear fails too, the window is kept if and only if the key outlives the row |
| SubmissionLimits.OwnerLimitIsExact | internal/idempotency/redis_reference_store.go:91-97 | A limit on the time acquirers take keeps the window in every run if and only if it is at most the TTL |
| SubmissionAgreement.TimeLimitsAreExact | internal/http/ledger_api.go:517-528 | Limits on the time acquirers and losers take make all answers of a window agree in every run if and only if both are at most the TTL |
| SubmissionAgreement.FailedMarkKeepsAgreementIff | internal/http/ledger_api.go:398-406 | After a failed mark, all answers of every window agree in all continuations if and only if a loser has marked the row already |
| SubmissionAgreement.HiddenRowBreaksAgreement | internal/http/ledger_api.go:384-386 | A create error that hides a row always lets one window answer with two ids, whether Clear succeeds or not |
| SubmissionLimits.FailedMarkLosesWindow | internal/http/ledger_api.go:398-406 | For every TTL and every positive gap between Begin and insert, a run that breaks Strict only by a failed mark stores two rows within the TTL |
| SubmissionLimits.HiddenRowLosesWindow | internal/http/ledger_api.go:384-386 | For every TTL, a run that breaks Strict only by a create error that hides a row stores two rows within the TTL |
| SubmissionLimits.SlowOwnerLosesWindow | internal/http/ledger_api.go:359-366 | For every TTL and every limit on losers, a run that breaks the rules only by one tick too many in the acquirer's segment stores two rows within the TTL and answers with both in one window |
| SubmissionAgreement.SlowLoserBreaksAgreement | internal/http/ledger_api.go:517-528 | For every TTL and every limit on acquirers, a run that breaks the rules only by one tick too many in a loser's segment answers with two ids in one window |
| SubmissionAgreement.CoveredFailedMarkBreaksAgreement | internal/http/ledger_api.go:398-406 | For every TTL, a run that breaks Strict only by a failed mark of a row that the key outlives, and so keeps the window, answers with two ids in one window |
| Submission.StepKeepsInv | internal/idempotency/redis_reference_store.go:63-192 | Every step of every handler, and of the clock, that obeys Strict keeps the protocol's invariant |
| SubmissionHandler.Service.TryReplay | internal/http/ledger_api.go:485-534 | Whatever others do, it answers with a completed record that is live when it asks, fails exactly if a command it executes fails, and otherwise has looked the row up; it never stores a row; undisturbed, it answers exactly what the record names or, without one, the newest row if that row is within the TTL |
| SubmissionHandler.Service.FindByReference | internal/repository/ledger_transaction_repository.go:128-160 | It finds the newest row by (created_at, id), if there is one |
| SubmissionHandler.Service.WaitForReplayableTransaction | internal/http/ledger_api.go:555-589 | It ends without an answer or error only after one GET and one lookup for each poll; a completed record that is live at the next poll is the answer; an error means that a command failed; it never stores a row |
| SubmissionHandler.Service.HandleTransactionPlace | internal/http/ledger_api.go:280-409 | A request stores at most one row, exactly one if it answers as accepted and none if it replays or reports a conflict, and every 202 it sends is recorded; an acceptance ends with the mark, a refused creation with the clear, a conflict comes after all attempts and an error only after something failed; undisturbed, its answer, the rows and the stored record are determined in every case: free or held key, invalid body, completed record, recent or old row |
| ReferenceKey.KeysDoNotCollide | internal/idempotency/redis_reference_store.go:194-196 | For tenant ids without a colon, two keys are equal if and only if tenant and reference are |
| ReferenceKey.KeyParts | internal/idempotency/redis_reference_store.go:194-196 | The key is the prefix, the tenant and the reference, with colons between |
| ReferenceKey.TenantsCollideIff | internal/idempotency/redis_reference_store.go:194-196 | Two tenants can share a key, for some references, if and only if they are the same or one id starts with the other and a colon |
| RateLimiter.SlidingWindowLimiter.AllowTransactionSubmission | internal/ratelimiting/redis_sliding_window.go:19-47 | The script admits exactly when fewer than the limit were admitted in the last window of the full history; a refusal reports the current count and an exact wait between 1 ms and the window |
| RateLimiter.SlidingWindowLimiter.Serve | internal/ratelimiting/redis_sliding_window.go:83-145 | Over any run of calls of any tenants, each tenant's admissions are what the counting rule makes of its own calls |
| RateLimiter.SlidingWindowLimiter.AdmittedWithinBound | internal/ratelimiting/redis_sliding_window.go:25-43 | At any time no window's length of what was ever admitted for a tenant holds more than the limit |
| RateLimiter.SlidingWindowLimiter.PrunedIsRecent | internal/ratelimiting/redis_sliding_window.go:25-43 | Pruning and key expiry lose nothing that is still in the window |
| RateLimiter.WindowBound | internal/ratelimiting/redis_sliding_window.go:25-43 | No interval of one window's length, ending at any time, holds more than the limit |
| RateLimiter.RunsKeepWindowBound | internal/ratelimiting/redis_sliding_window.go:25-43 | The window bound over a whole run from nothing |
| RateLimiter.RefusedUntilRetry | internal/ratelimiting/redis_sliding_window.go:28-40 | After a refusal all calls before the reported wait are refused, whatever they are, and the first one at or after it is admitted |
| RetryAfter.LeastWholeSeconds | internal/http/ledger_api.go:669-683 | The header is the least positive whole number of seconds not shorter than the wait (delay-seconds, section 10.2.3 of RFC 9110) |
| RetryAfter.HeaderIsExact | internal/http/ledger_api.go:308-312 | After the header's seconds a call is admitted, and after any smaller whole number it is refused |
| WorkerPool.GracefulDrain | internal/worker/runtime.go:77-171 | The queue never exceeds eight jobs per worker, it is closed only after the cancellation, a pass sends a prefix of its snapshot, and once run has returned every job sent was handled exactly once and every worker has stopped |
| WorkerPool.PassesSeeLastList | internal/worker/runtime.go:202-232 | A pass works on the tenant list that was stored last |
| WorkerPool.PassEndsWhen | internal/worker/runtime.go:234-250 | A pass ends with its whole snapshot sent, with the queue full, or on cancellation |
| WorkerPool.StartIsNotCancelled | internal/worker/runtime.go:106-108 | The pool counts as cancelled if and only if the context was cancelled during the run |
| WorkerPool.NoSendAfterClose | internal/worker/runtime.go:128-145 | After the close nothing is sent and nothing is closed again |
| WorkerPool.ShutdownEnds | internal/worker/runtime.go:105-110 | Once cancelled, a schedule is bounded by the work at hand and the number of further passes, even if a refresh that was under way still stores its list |
| WorkerPool.OneStoreAfterCancel | internal/worker/runtime.go:112-126 | After the cancellation at most one tenant list is stored, by the refresh that was under way |
| WorkerPool.ShutdownMoves | internal/worker/runtime.go:105-171 | Until run has returned, a cancelled pool can always take a step other than a refresh or a further pass |
| WorkerPool.Runtime.EnqueueTenantJobs | internal/worker/runtime.go:234-250 | A pass sends exactly the first n tenants of its snapshot, in order, and stops early only when it takes the Done case or with the queue full; once cancelled it stops at the first Done case taken |
| WorkerPool.Runtime.DispatchLoop | internal/worker/runtime.go:128-145 | The dispatcher makes a first pass at once and one more for each tick it takes, sends what these passes send and nothing else, and closes the channel exactly when it takes the Done case of a cancelled context |
| Webhook.FibonacciRetryBackoff | internal/worker/webhook_processor.go:187-205 | The int64 loop returns the Fibonacci number of seconds capped at the largest whole-second duration, without overflow |
| Webhook.BackoffValues | internal/worker/webhook_processor.go:187-205 | The waits are one second, two seconds, and then the sum of the last two, up to the largest whole number of seconds in int64 nanoseconds |
| Webhook.BackoffIsMonotone | internal/worker/webhook_processor.go:187-205 | Waits never get shorter |
| Webhook.TotalBackoffIsFibonacci | internal/worker/webhook_processor.go:78-94 | While nothing saturates, the waits of n attempts add up to f(n+1) - 2 seconds |
| Webhook.DispatchTransactionWebhookNow | internal/worker/webhook_processor.go:29-97 | The loop stops at the first success, or after exactly the configured number of failed sends, five by default, having slept the sum of the waits between them |
| LedgerPages.ListLedgerEntries | internal/repository/ledger_entry_repository.go:50-87 | The row loop returns the LIMIT/OFFSET window of the entries in descending id order, and nothing from an offset at or past the end |
| LedgerPages.PagesTile | internal/repository/ledger_entry_repository.go:50-56 | Consecutive pages of any positive size add up to the whole ledger, without gap or repeat |
| LedgerPages.CountLedgerEntries | internal/repository/ledger_entry_repository.go:90-113 | The count is the total length of the pages, whatever their size |
| LedgerPages.PagesFollowChain | internal/repository/ledger_entry_repository.go:50-113 | In every reachable ledger the pages list all entries by descending id, each starts from the balance the next one listed left behind, and the first shows the current balance |

## Left out

- HTTP routing, headers, JSON encoding, request ids, authentication and logging: a request is an already parsed record.
- Whitespace trimming of tenant ids, references and request ids: every component trims the same way, so the model takes the trimmed values.
- The legacy record formats and the JSON codec of stored records: the stored state is a datatype.
- The duplicate-reference branch at `internal/http/ledger_api.go:367-382`: no constraint of the shipped schema can trigger it.
- Response bodies: a loser may snapshot a row after a worker has changed its status, so only transaction ids are claimed to agree.
- Statements that PostgreSQL evaluates over a span of time, lock-wait queues, and the exact moment at which INSERT ... ON CONFLICT waits for a concurrent update of an existing balance row: each statement is one atomic step.
- The prose of failure messages: a failure keeps its code and the values the message prints.
- A Redis command that takes effect although its reply is lost: the machine has it as the event that succeeds; the handler methods take a failed command as one that was not executed.
- Tenant registration, key hashing, configuration, the tenant query of the refresher, and suspension racing with work in flight.
- A refresh that the ticker starts after the cancellation: its query fails on the cancelled context and changes nothing.
- Dispatch fairness between tenants: a full queue ends a pass, and every pass starts at the first tenant.
- Loading the webhook configuration row by row and the HTTP exchange itself: the configuration is a value and a send succeeds or fails.
- Hosts whose clocks differ, and a limiter clock that goes backwards.
- SubmissionHandler.Service.HandleTransactionPlace: the rate-limit check that precedes Begin is a separate model (RateLimiter), because it touches none of the state of the protocol.
- RateLimiter.SlidingWindowLimiter.Serve: a loop of the model, not of the source; it stands for the clients of the limiter.
