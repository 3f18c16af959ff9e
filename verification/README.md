# Currency rate service: a verified model

The service answers requests to refresh the price of a currency pair. A request becomes a row of
the table `update_requests`; a bounded queue hands rows to workers; a worker asks a provider
(through a cache, a fallback and a retry layer), writes the quote and settles the row. Rows the
queue dropped are listed again by resync. This project models that machinery and proves what it
keeps under every interleaving, fault and clock.

`dafny verify dfyconfig.toml` checks everything.

## How the model is laid out

| file | what it models |
|---|---|
| `Domain.dfy` | currency pairs, parsing and printing |
| `Utf8.dfy` | texts as bytes: what the database takes, and what cutting at a byte count does |
| `Requests.dfy` | the rows, the unique constraints, single SQL statements, `CreateUpdateRequest` as a machine with one step per statement |
| `Storage.dfy` | the storage object; other clients' statements run between its own |
| `System.dfy` | the running service as a transition system: any number of callers and workers, two resync threads, shutdown, faults |
| `Invariants.dfy`, `Guarantees.dfy`, `Provenance.dfy` | what each step keeps; what whole runs guarantee; where outcomes come from |
| `Calls.dfy` | what a caller of `CreateUpdateRequest` may rely on |
| `Idempotency.dfy` | when a repeated key gives the same request, in any run; undisturbed calls are the atomic operation |
| `Bounds.dfy`, `Progress.dfy` | how many rows can be pending; resync rounds settle them |
| `Overtaking.dfy` | quotes never go back in time exactly with one worker |
| `LateHandOver.dfy`, `FullService.dfy` | a run that panics in shutdown; a run that serves a request and stops in order |
| `Service.dfy` | the service object run by one thread: validation, queue, processing, resync, draining |
| `Rates.dfy`, `Backoff.dfy`, `Resilient.dfy` | error chains, the wrapping backoff, the rate gate and the retry loop |
| `RateSpec.dfy` | what a run of the retry loop is, event by event, on any context |
| `GateRuns.dfy` | many goroutines at one gate |
| `Fallback.dfy`, `Cached.dfy`, `CacheRuns.dfy` | the spare provider, the whole stack behind the cache, many callers inside the cache |
| `EndToEnd.dfy`, `StalePrice.dfy` | the service with the cache in front of its provider; how old a completed price can be |
| `Cross.dfy` | cross rates and the two providers' readings of replies |
| `Metrics.dfy` | labelled counters and the lock-free sum |
| `Migrate.dfy` | migrations that stop anywhere |

Conventions. A row's id is its position in the table, as ids are fresh and rows are never deleted.
A single SQL statement is one step; the unique constraints hold; a fault may strike a statement
before its effect or after it (`LostBefore`, `LostAfter`). Times and durations are integers,
unbounded except in `Backoff.dfy` and `Rates.dfy`, where 64-bit wrap-around is explicit. Error
texts and idempotency keys are bytes, and a text column refuses malformed UTF-8 and NUL, as
PostgreSQL does in a UTF-8 database. A statement that meets a fault takes effect at its own step or
never; one that the server applies later, after the client gave up on it, is not modelled, and
`Overtaking.OneWorkerExactly` rests on that. A panic of a send is recorded and the run goes on, as
the HTTP layer recovers panics of its handlers. After a stop of the HTTP server that timed out,
calls may still begin. Prices
are real numbers. Provider answers, clock readings, random draws, the moment a context ends and
the winner of a select are arbitrary inputs. Fields called history (`accepted`, `processed`,
`writes`, `log`, `answers`, ...) record the past and are never read by the modelled code.

## Where code and documentation differ

- README.md:135-136 promises that a repeated `Idempotency-Key` returns the same request. The code
  does not attach a key that arrives while another request of the pair is pending
  (internal/storage/postgres/storage.go:52-56), nor one that loses a race for the pair (lines 68-71
  of that file), so the promise can fail: `Idempotency.KeyCanBeLost` and `Idempotency.KeyLostInRace` are concrete histories,
  `Idempotency.RepeatedKeyExactly` says exactly when it holds, and `Calls.KeySticks` that it always
  holds once a row carries the key.
- The comment at internal/rates/resilient/resilient.go:90-91 promises an interval between actual
  provider calls. The code spaces slots (`Resilient.SlotsApart`), and a call held up after its slot
  can start right before the next: `GateRuns.CallsCanBunch` is such a run, with two calls one
  nanosecond apart. `GateRuns.SpacingExactly` says exactly when a call keeps its distance from all
  that follow; what holds for all starts is the bound of `GateRuns.CallsAreSpread`.
- The comment at internal/rates/cached/cached.go:62-65 promises fresh answers on a hit. They are fresh
  at the cache's reply (`EndToEnd.CompletedPricesWereFresh`), not always at the time a row shows,
  which the worker reads later: `StalePrice.AgeExactly` is the exact bound, and
  `StalePrice.LateRunEndsLate` the run that reaches it.
- The comment at internal/service/service.go:154-155 promises that accepted requests are waited for,
  but a create call still in flight when the server's stop times out sends on a closed queue:
  `LateHandOver.SomeRunPanics`, and `Guarantees.PanicsExactly` says exactly when.
- internal/storage/postgres/storage.go:142-147 cuts error texts at 500 bytes. A cut inside a character is refused by the
  database, and the row stays pending: `Service.ProcessedSettles` and `Utf8.StorableExactly` say
  exactly when, `Provenance.RefusedStaysPending` what becomes of such a row.
- The fake repository at internal/service/service_test.go:38-64 creates in one atomic step. The
  real code does so when undisturbed (`Idempotency.UndisturbedIsAtomic`); in general it gives what
  `Calls.dfy` states.

## Model

The first 68 rows are the main results; the rows after them are the operations, the steps and the facts they
are built from.

| member | source | states |
|---|---|---|
| Calls.ExistingAnswersCall | internal/storage/postgres/storage.go:41-81 | an answer with created=false is a snapshot, taken inside the call, of a row that then carried the caller's key or was pending for its pair |
| Calls.CreatedAppends | internal/storage/postgres/storage.go:58-80 | an answer with created=true is the row this call appended: pending, for its pair, with its key, without price or error, dated by the database |
| Calls.CreatedOnce | internal/storage/postgres/storage.go:58-80 | no row is reported as created to two calls |
| Calls.CreatedAsRequested | internal/service/service.go:105-121 | in every run: a row reported as created stands in the table for the pair some request text asked for, sides in that order and in normal form, with the key of that request |
| Calls.ErrorExactly | internal/storage/postgres/storage.go:41-79 | in every run: a call that met no fault ends in an error iff the database refuses its key, or its insert hit a pending row that left pending, nothing was pending for the pair at the recovery lookup, and then no row had the key |
| Calls.KeySticks | internal/storage/postgres/storage.go:41-50 | once a row carries a key, every later fault-free call with that key gets exactly that row, for any pair and through anything in between |
| Idempotency.RepeatedKeyExactly | README.md:135-136 | in any run, for two calls with one key of which the second starts after the first was answered: both get the same request iff that request carries the key, or nobody carries it when the second asks for it and that request is pending for its pair when it asks for its pair |
| Idempotency.UndisturbedIsAtomic | internal/service/service_test.go:38-64 | five separate statements without interference or fault do exactly the atomic create, or, on a refused key, nothing but err |
| Idempotency.KeyLostInRace | internal/storage/postgres/storage.go:52-71 | a concrete call, without faults and with nothing pending when it begins, that is answered without its key being stored |
| Guarantees.OneRowPerPairAndKey | internal/storage/postgres/migrations/0001_init.sql:16-23 | at every instant two different rows are never both pending for a pair nor share a key |
| Guarantees.TerminalForever | internal/storage/postgres/storage.go:126-155 | columns fit the status at every instant; a terminal row never changes in any continuation; pair, key and creation time never change |
| Guarantees.HeldAgreesWithTable | internal/service/service.go:200-275 | whatever is queued, held or about to be sent names an existing row and agrees with it on the pair |
| Guarantees.CompletedWasPublished | internal/service/service.go:227-238 | a row completed in the run had a quote with the same pair, price and time written at an earlier step, and its pair has a quote ever after |
| Guarantees.QuotesAreLastWrites | internal/storage/postgres/storage.go:157-168 | at every instant of every run each pair shows its own last write, or what it showed at start; writes of other pairs leave it alone |
| Provenance.OutcomeWasHeard | internal/service/service.go:210-243 | a completed row shows a price answered to a worker asking for that row, dated when the worker took it; a failed row shows that worker's reason, or the database's words about its quote, cut to 500 bytes; no other price or reason reaches a row |
| Provenance.QuoteWasHeard | internal/service/service.go:210-237 | every quote ever written is a provider answer for a row of that very pair, dated when the worker took it |
| Provenance.RefusedStaysPending | internal/storage/postgres/storage.go:142-155 | a row of which providers only complained in texts the cut makes malformed stays pending, however often resync queues it |
| EndToEnd.CompletedPricesWereFresh | cmd/server/main.go:99-113 | service and cache together, in every interleaving and with any time between the reply and the look at the clock: the price of a completed row was a reply of the cache given no later than the time the row shows, answered from behind the cache for the pair of that row, and stored less than a TTL before the reply; at the time the row shows it is younger than a TTL iff the reply was taken before its time left ran out |
| StalePrice.AgeExactly | internal/service/service.go:215-227 | the exact bound: if workers take replies within a delay, every completed row shows a price stored less than TTL + delay before its time, and no smaller bound holds in all runs; so less than a TTL holds iff there is no delay |
| Overtaking.OneWorkerExactly | internal/service/service.go:92-95 | for every number n of workers: quotes never go back in any run iff n = 1 (the default is four, internal/config/config.go:75) |
| Guarantees.AcceptedIsConserved | internal/service/service.go:192-205 | accepted entries are exactly the processed, queued and held ones; the queue is the tail of what was accepted |
| Guarantees.AcceptedExactly | internal/service/service.go:192-198 | at every step of every run: a handed-over row or the next of a listing is accepted at the end of the queue iff the queue is open and has room; nothing else is |
| Guarantees.DrainedMeansProcessed | internal/service/service.go:156-173 | when shutdown ends because the workers left, the queue is empty and everything accepted was processed |
| Guarantees.CleanStopNeverPanics | cmd/server/main.go:153-158 | if no create call was in flight when the HTTP server stopped, no send ever follows the close and nobody is left who could send; after a stop that timed out this takes that none begins later |
| Guarantees.PanicsExactly | internal/service/service.go:156-198 | in every run: a send on the closed queue has panicked iff some created row was handed over after the close |
| LateHandOver.SomeRunPanics | cmd/server/main.go:153-158 | a legal run from an empty table in which a send panics: the stop times out with one create call in flight |
| Progress.RoundSettles | internal/service/service.go:192-275 | after a resync round whose status writes take effect the first min(capacity, listed) rows are terminal, whether the provider gave prices or errors; lookups of other calls may interleave |
| Progress.RoundShrinks | internal/service/service.go:192-275 | of p pending rows a round settles at least min(100, capacity, p), if its status writes take effect |
| Progress.RoundsFinish | internal/service/service.go:192-275 | ceil(p / min(100, capacity)) rounds whose status writes take effect leave nothing pending, if nothing is created in between |
| Bounds.PendingBound | internal/service/service.go:105-121 | with n supported currencies at most n(n-1) rows are ever pending |
| Bounds.ResyncNeverTruncates | internal/service/service.go:261-272 | with at most ten currencies the limit of 100 hides no pending row |
| Service.ProcessedSettles | internal/service/service.go:210-243 | processing settles its row, and no other, iff the status write takes effect; a completed row has the same price and time in the quotes; a failed row says why |
| Utf8.StorableExactly | internal/storage/postgres/storage.go:142-149 | for any bytes: the database takes the cut text iff reading the reason from its start comes, without a malformed character or a NUL, to the very place of the cut, or of the end if that comes first |
| Backoff.BackoffExactly | internal/rates/resilient/resilient.go:131-134 | for every attempt the clamped delay is min(BaseDelay * 2^(attempt-1), MaxDelay) iff the bits kept by the shift are none, look negative, or still reach the cap |
| Backoff.BackoffIsIdeal | internal/rates/resilient/resilient.go:131-134 | a simple bound that implies it: BaseDelay * MaxDelay fits 63 bits |
| Backoff.JitterRange | internal/rates/resilient/resilient.go:135-142 | every draw keeps the delay within a fifth and below the cap, iff the widest sum fits 63 bits |
| Backoff.DelayExact | internal/rates/resilient/resilient.go:123-143 | a positive Retry-After wins, capped; otherwise the jittered ideal backoff; never above MaxDelay, never below one |
| Resilient.SlotClosedForm | internal/rates/resilient/resilient.go:97-106 | slot i is the maximum over j <= i of reading j plus (i-j) intervals |
| Resilient.SlotsApart | internal/rates/resilient/resilient.go:97-106 | slots are spaced by the interval, however many lie between |
| GateRuns.CallsAreSpread | internal/rates/resilient/resilient.go:90-119 | for any number of goroutines at the gate, cancelled waiters included: no call starts before its slot of the closed form, and by time t at most 1 + (t - first slot) / interval have started |
| GateRuns.SpacingExactly | internal/rates/resilient/resilient.go:90-119 | starts of real calls, when a call has just started: in every continuation all calls reserved later start a whole interval after it iff no later one has started or holds an earlier timer and the next free slot is not earlier |
| Resilient.LiveRun | internal/rates/resilient/resilient.go:58-88 | with a live context the events are gate, call and then sleep, gate, call for each retry, up to the first stopping outcome or MaxAttempts, which is returned; the sleep after attempt i is min(Retry-After, MaxDelay) if the error carries a positive one, otherwise the ideal backoff of that attempt give or take a fifth |
| RateSpec.RunExactly | internal/rates/resilient/resilient.go:58-157 | on every context, without the loop: which gates, calls and sleeps happen, in which order and why; the slot of each gate and whether it opens; which calls are late; how long each sleep is; where the run ends, and whether with an outcome or the error of the context; and which reservations it leaves |
| Resilient.RateBudget | internal/rates/resilient/resilient.go:58-119 | for every context: at most MaxAttempts calls, each right behind an open gate and not before its reserved slot, each sleep right behind a retryable failure; at most one call after the context is done; the result is an outcome or the context's error; no fall-through |
| Fallback.FallbackBudget | internal/rates/fallback/fallback.go:56-80 | the spare is asked iff the main stack failed with the context alive; budgets of both; at most one late call in all; the main error is the one returned |
| Fallback.FallbackExactly | internal/rates/fallback/fallback.go:56-80 | both layers run exactly as specified, the main one on the caller's context and the spare on a live one; the main answer counts unless only the spare succeeded |
| Cached.StackBudget | cmd/server/main.go:82-106 | the whole stack: a hit iff the entry is fresh, and then nothing else happens; otherwise the budgets, the main error on double failure, and exactly one entry stored, with its expiry, after a success |
| Cached.LiveMiss | cmd/server/main.go:82-106 | a miss on a live context: the answer of the first stopping attempt of the main provider, or of the spare |
| CacheRuns.HitsAreFresh | internal/rates/cached/cached.go:70-77 | every hit is, unchanged, an answer of the provider for that pair, stored less than a TTL before |
| CacheRuns.LookupsHit | internal/rates/cached/cached.go:72-78 | every lookup of the pair within the TTL of a store hits |
| CacheRuns.StoresPerTtl | internal/rates/cached/cached.go:66-91 | with W callers at most W-1 further stores for the pair happen within the TTL |
| Cross.SwitchingKeepsPrice | internal/rates/frankfurter/provider.go:72-74 | honest replies to both providers' requests give the same price |
| Cross.RepliesAgree | internal/rates/exchangeratesapi/provider.go:154-168 | end to end: for every price table and pair, what each provider is asked for gives one and the same price |
| Cross.RepliesCompose | internal/rates/cross.go:17-35 | two honest replies with any anchors and any reading orders: what both price they agree on, and a chain may take its links from either |
| Cross.DeterminedExactly | internal/rates/cross.go:17-35 | the price, or error, is a function of the reply iff a side has no value, a side has bad values only, or each side has one value; the anchor's value is one |
| Cross.ReanchorKeepsPrices | internal/rates/cross.go:22-34 | dividing any loaded table by any positive entry changes no result of any pair, errors included |
| Cross.PricesCompose | internal/rates/cross.go:26-34 | on any table the code has loaded: a pair has a price iff its inverse has, and the two multiply to one; where two links of a chain have prices its ends have one, and the prices compose |
| Metrics.SumIsSwapped | internal/metrics/metrics.go:126-143 | at every instant of every interleaving the sum is the total of the swaps that succeeded |
| Metrics.QuiescentTotals | internal/metrics/metrics.go:126-143 | with nobody inside, sum, count and the counters labelled ok and error agree with the observations made |
| Metrics.LabelKeyExactly | internal/metrics/metrics.go:69-79 | two observations share a counter iff they agree on every label, whatever quotes, commas or line breaks the values hold |
| Migrate.CrashSafe | internal/storage/postgres/migrate.go:38-70 | across any sequence of runs a version is recorded iff its body is committed, and each body commits at most once |
| Migrate.RunExactly | internal/storage/postgres/migrate.go:38-70 | a run stops at the first name it cannot check or commit, returns nil iff there is none, and has committed, body and record together and in order, exactly the unrecorded names before it, and that one iff its commit went through unanswered |
| Migrate.SuccessIsFinal | internal/storage/postgres/migrate.go:15-71 | after a nil return no later run changes anything |
| Migrate.PrefixForever | internal/storage/postgres/migrate.go:36-70 | a prefix of the sorted names stays a prefix through any runs: migrations commit in order without gaps |
| Domain.RoundTrip | internal/domain/pair.go:27-55 | parsing undoes printing for every valid pair |
| Domain.ParseExact | internal/domain/pair.go:27-53 | parsing succeeds with p if and only if p is valid and its printed form is the upper-cased, trimmed input |
| Domain.ToStringInjective | internal/domain/pair.go:55 | two valid pairs never share a printed form, which keeps cache entries and pending rows apart |
| Domain.ParseInsensitive | internal/domain/pair.go:26-28 | the case of Latin letters and surrounding Unicode white space never change the outcome, successes and errors alike |
| Calls.BeginAppends | internal/service/service.go:105-118 | a request begins a call iff its text asks for a supported pair; the call is for that pair and has that key |
| Calls.CallBegan | internal/service/service.go:105-118 | every call of a run began with a request whose text asks for the pair of the call |
| System.AdmitExactly | internal/service/service.go:106-114 | a pair is admitted for a text iff it is valid, supported on both sides, and printed by the text up to case and white space |
| Guarantees.PassEnds | internal/service/service.go:245-272 | a resync pass ends when its listing fails or runs out; the loop then waits for its next tick, the start-up pass is over |
| FullService.ServesAndStops | internal/service/service.go:105-243 | a legal run from an empty table: one request is created, queued, priced, published and completed, and an orderly shutdown drains the queue |
| Fallback.LiveFallback | internal/rates/fallback/fallback.go:56-80 | on a live context: the main provider up to its first stopping attempt, whose success is the answer; else the spare up to its own, whose success is the answer; else the main error |
| Cached.MissExactly | cmd/server/main.go:82-106 | a request that does not hit runs the providers behind the cache exactly as specified and answers with what they answer |
| Cached.StoresExactly | internal/rates/cached/cached.go:85-87 | stores of other goroutines leave each key its last store with its own expiry, and other keys alone |
| Calls.ErrorCause | internal/storage/postgres/storage.go:64-79 | the instants behind such an error: the refused first lookup, or the clashing insert and the recovery lookups of the lost race |
| Calls.RecoveryFails | internal/storage/postgres/storage.go:68-78 | one recovery lookup fails exactly when nothing matches |
| Guarantees.OrderlyStopNeverPanics | cmd/server/main.go:153-158 | after a stop that did not time out no send ever panics |
| Resilient.DistanceExactly | internal/rates/resilient/resilient.go:97-106 | slots of a given history: those after a call that starts late stay a whole interval behind it iff nobody reserved after it, it was not late at all, or the next caller came a whole interval after it |
| GateRuns.CallsCanBunch | internal/rates/resilient/resilient.go:90-119 | a concrete run with an interval of ten and two calls one nanosecond apart |
| GateRuns.OnTimeIsApart | internal/rates/resilient/resilient.go:108-118 | a call that starts right on its slot always keeps its distance |
| GateRuns.CancelledNeverStarts | internal/rates/resilient/resilient.go:108-118 | a waiter that gives up has used its slot: the call of that reservation never starts |
| Resilient.DeadContext | internal/rates/resilient/resilient.go:58-119 | a context done beforehand gets no call, or exactly one when the gate had to wait and the timer won; never a sleep; with a positive MinInterval a slot is used up either way |
| Resilient.DelayIsPrescribed | internal/rates/resilient/resilient.go:78-80 | the delay the loop computes is the one the error and the attempt prescribe |
| Domain.ParsePair | internal/domain/pair.go:27-41 | only valid pairs are ever produced: three capital letters each side, sides distinct |
| Domain.PrintAfterParse | internal/domain/pair.go:27-55 | printing what was parsed gives the normal form, and doing so again changes nothing |
| Domain.ParseErrors | internal/domain/pair.go:29-39 | which error an input gets: not two sides, a side that is no code, or two equal sides, asked in this order |
| Domain.CapitalsExactly | internal/domain/pair.go:28 | which characters become a given capital letter |
| Domain.TrimUnique | internal/domain/pair.go:28 | trimming finds the one core with white space around it and none at its ends |
| Domain.Split | internal/domain/pair.go:29 | the pieces contain no separator and join back to the text |
| Domain.SplitTwo | internal/domain/pair.go:29-33 | two separator-free sides joined by a slash split into exactly those sides |
| Requests.First | internal/storage/postgres/storage.go:192-218 | a lookup finds the first matching row, and nothing exactly when no row matches |
| Requests.SelectOneExact | internal/storage/postgres/storage.go:192-250 | on a sound table a fault-free lookup succeeds iff a row matches, returns that row column for column, and errs iff the database refuses the key |
| Requests.MatchUnique | internal/storage/postgres/migrations/0001_init.sql:16-23 | at most one row carries a key and at most one is pending for a pair |
| Requests.InsertKeeps | internal/storage/postgres/storage.go:58-65 | inserting keeps both unique constraints and changes no existing row, whatever fault strikes |
| Requests.CompleteKeeps | internal/storage/postgres/storage.go:126-140 | completing keeps every constraint, touches no terminal row and creates none |
| Requests.FailKeeps | internal/storage/postgres/storage.go:142-155 | failing keeps every constraint, touches no terminal row and creates none |
| Requests.EvolvesTransitive | internal/storage/postgres/storage.go:126-155 | "identity is fixed and terminal rows are frozen" carries over any number of statements |
| Utf8.Cut | internal/storage/postgres/storage.go:257-262 | the error text is the longest prefix of the reason within the limit, counted in bytes |
| Utf8.DecodeExact | internal/storage/postgres/storage.go:142-149 | bytes are well-formed UTF-8 exactly when they encode a text, and then exactly one |
| Utf8.CutExactly | internal/storage/postgres/storage.go:257-262 | a well-formed text cut at n bytes stays well formed iff it was short enough or the cut falls on a character boundary |
| Utf8.TextStorableExactly | internal/storage/postgres/storage.go:257-262 | for a well-formed reason without NUL: iff it was short enough or the cut falls between two characters |
| Utf8.SomeCutsAreRefused | internal/storage/postgres/storage.go:257-262 | a concrete reason of Cyrillic letters whose text cut at 500 bytes is refused |
| Utf8.SomeEncodings | internal/storage/postgres/storage.go:142-149 | one character of each width, as RFC 3629 encodes it |
| Storage.Storage.CreateUpdateRequest | internal/storage/postgres/storage.go:41-81 | for every interference between its statements and every fault, outcome and table are those of the statement machine |
| Storage.Storage.FindFirst | internal/storage/postgres/storage.go:192-218 | the scan meets the lookup's specification |
| Storage.Storage.QueryRow | internal/storage/postgres/storage.go:192-218 | a lookup through the object is the specified one: broken, missing or the scanned row |
| Storage.Storage.InsertRow | internal/storage/postgres/storage.go:58-65 | the insert's reply and new table are those of the specified statement: a conflict leaves the table alone |
| Storage.Storage.CompleteUpdateRequest | internal/storage/postgres/storage.go:126-140 | the new table; updating a row that is not pending is no error and no change |
| Storage.Storage.FailUpdateRequest | internal/storage/postgres/storage.go:142-155 | the new table; a text cut inside a character is refused with an error and no change; failing a row that is not pending is neither |
| Storage.Storage.UpsertQuote | internal/storage/postgres/storage.go:157-168 | unless lost, the pair's quote is this one, no other pair's quote differs, and no pair but this one is added |
| Storage.Storage.ListPendingUpdateRequests | internal/storage/postgres/storage.go:97-124 | distinct faithful snapshots of pending rows, oldest first, none older missing, all of them when below the limit; limit 100 when none is given |
| Storage.Storage.Oldest | internal/storage/postgres/storage.go:101-106 | the next row by creation time among those not yet listed, and none exactly when all are listed |
| Storage.ListOneMore | internal/storage/postgres/storage.go:112-119 | appending the oldest pending row not yet listed keeps the listing faithful, distinct, in order and without gaps |
| Storage.ExecuteAllKeeps | internal/storage/postgres/storage.go:41-155 | any sequence of other clients' statements keeps the constraints and freezes terminal rows |
| Storage.OthersAct | internal/storage/postgres/storage.go:58-155 | the statements of other clients that run in between do what they are for: insert a free pair, settle a pending row |
| Storage.CreatedIsOwn | internal/storage/postgres/storage.go:58-80 | whatever runs in between, a request reported as created is for the pair of the call |
| Storage.SelectedScans | internal/storage/postgres/storage.go:224-250 | a stored row always scans: the "corrupt pair" error cannot arise on a sound table |
| Invariants.StatementKeeps | internal/storage/postgres/storage.go:41-81 | one statement of a call: constraints kept, at most the call's own pending row appended, created answers are that row, other answers carry the key or are pending for the pair |
| Invariants.TableStep | internal/storage/postgres/storage.go:41-155 | every step of callers, workers, resync and shutdown keeps the table constraints and freezes terminal rows |
| Invariants.HeldStep | internal/service/service.go:192-275 | every step keeps queued, held and listed requests in agreement with their rows |
| Invariants.ConservedStep | internal/service/service.go:192-205 | every step keeps accepted = processed + queued + held, in order of arrival |
| Invariants.PublishedStep | internal/service/service.go:210-243 | every step keeps "completed rows have their quote written", and quotes never disappear |
| Invariants.LifeStep | internal/service/service.go:156-173 | every step keeps the order of shutdown: the start-up pass is not repeated, the resync loop goes on until it is cancelled, and none outlives the close of the queue |
| Invariants.PanicStep | internal/service/service.go:156-198 | a step panics exactly if it hands a created row over after the close |
| Invariants.IdleStep | cmd/server/main.go:153-158 | with no call in flight none ever is again unless one begins, and none begins after an orderly stop |
| Invariants.ExitStep | internal/service/service.go:200-205 | workers leave only when the queue is closed and empty |
| Invariants.TimeStep | internal/service/service.go:227-237 | with one worker each step only moves quote times forward |
| Guarantees.Reachable | internal/service/service.go:57-275 | the joint invariant holds at every instant of every run |
| Guarantees.Between | internal/storage/postgres/storage.go:126-155 | between any two instants rows only evolve and writes and quotes only grow |
| Guarantees.WriteHappened | internal/service/service.go:227-236 | every recorded quote write is a step of some worker that put exactly that quote in the table |
| Guarantees.OneWorkerNeverGoesBack | internal/service/service.go:200-243 | with one worker and a monotone clock no quote disappears or goes back in time |
| Overtaking.SeveralWorkersCanGoBack | internal/service/service.go:200-275 | for any number of workers from two on, a concrete run in which two of them hold the same row and the older quote is written last |
| Provenance.HeldStory | internal/service/service.go:210-238 | what a worker is about to write was answered to it, or its quote write failed |
| Provenance.RowMoves | internal/storage/postgres/storage.go:126-155 | a row leaves pending only by the status write of a worker that holds it |
| Calls.ErrorStep | internal/storage/postgres/storage.go:41-79 | without a fault a lookup errs only on a refused key, and an insert errs only through a failed recovery |
| Calls.FaultsExactly | internal/storage/postgres/storage.go:41-79 | what a fault does at each statement: a query error and no change before the insert; an insert error, and the row there iff only the answer was lost and nothing clashed; nothing found in a recovery lookup |
| Calls.LostRaceFails | internal/storage/postgres/storage.go:68-79 | a call that lost the race ends in the error, whatever faults its recovery meets |
| Calls.RefusedEverywhere | internal/storage/postgres/storage.go:41-46 | a key that is not a text gets a call no further than its first lookup |
| Calls.LastMove | internal/storage/postgres/storage.go:41-81 | where a call stands was decided by one earlier statement of that very call |
| Idempotency.KeyStoredExactly | internal/storage/postgres/storage.go:35-62 | a call leaves its key in the table iff it was there already or the pair had nothing pending |
| Idempotency.HowItGotThere | internal/storage/postgres/storage.go:41-79 | a keyed call past its lookups found nobody with its key at one instant, and nothing pending for its pair at a later one |
| Idempotency.UndisturbedRepeat | README.md:135-136 | the sequential case, with a condition on the tables before the first call: the key was stored, could be stored, or the request is still pending for the second pair |
| Idempotency.KeyCanBeLost | README.md:135-136 | a concrete history in which one key names two requests |
| Bounds.ListingSize | internal/storage/postgres/storage.go:97-124 | a listing is as long as the number of pending rows, up to the limit |
| Bounds.SupportedForever | internal/service/service.go:105-121 | if the pending rows found at start are of supported pairs, all pending rows always are |
| Bounds.ImageSize | internal/storage/postgres/migrations/0001_init.sql:22-23 | the pigeonhole step: distinct pending rows have as many distinct pairs |
| Bounds.TextsSize | internal/domain/pair.go:37-39 | n currencies make at most n(n-1) texts with two different sides |
| Progress.FollowStep | internal/service/service.go:192-275 | through any step of a round, a listed row that fitted in the queue stays queued, held or settled |
| Service.Service.CreateUpdateRequest | internal/service/service.go:105-123 | a text that asks for no supported pair touches nothing; for any other the storage is called with that very pair, and exactly created rows, whose pair prints the text, are offered to the queue, which panics if it is closed |
| Service.Service.Enqueue | internal/service/service.go:192-198 | a full queue drops the entry, a closed one panics, and nothing else changes |
| Service.Service.Process | internal/service/service.go:210-243 | the tables afterwards are those of the worker machine run without interruption |
| Service.Service.Resync | internal/service/service.go:261-275 | the queue gains the longest prefix of a correct listing that fits; a closed queue panics at the first entry |
| Service.Service.Work | internal/service/service.go:200-205 | a worker takes entries in order, keeps the table sound and settles the row of every entry whose status write takes effect |
| Service.Service.Shutdown | internal/service/service.go:156-173 | the first call drains the queue as far as the wait allows and says whether anything is left; later calls do nothing |
| Service.TwoWrites | internal/service/service.go:210-243 | processing is at most two writes, and the second depends on the first as the branches say |
| Service.StatusWrites | internal/storage/postgres/storage.go:126-155 | a status write ends pending iff no fault precedes it and, for a failure, the text cut to 500 bytes is well formed; it touches one row and sets status, price or error, and time |
| Backoff.Wrap | internal/rates/resilient/resilient.go:131 | results fit 64 signed bits, and values that fit are unchanged |
| Backoff.ShiftExactly | internal/rates/resilient/resilient.go:131 | a 64-bit shift keeps the low bits only and reads them as a signed number; from 64 on it is zero |
| Backoff.OverflowIsCoarse | internal/rates/resilient/resilient.go:131-132 | an overflowed shift is zero, negative, or at least the power of two it was shifted by |
| Backoff.DefaultsAreIdeal | internal/rates/resilient/resilient.go:45-50 | the default delays meet that bound |
| Backoff.WrapCanShorten | internal/rates/resilient/resilient.go:131-134 | options that fail the condition: the third attempt waits 4 ns instead of the cap |
| Backoff.BoundIsNotNeeded | internal/rates/resilient/resilient.go:131-134 | options beyond the simple bound that are ideal at every attempt |
| Backoff.JitterReaches | internal/rates/resilient/resilient.go:135-142 | every value of that range comes from some draw |
| Rates.MarkSurvivesWrapping | internal/rates/errors.go:26-42 | a transient error wrapped any number of times stays retryable and keeps its Retry-After |
| Rates.RetryableExactly | internal/rates/errors.go:31-33 | an error is worth a retry iff the transient marker is somewhere in its chain |
| Rates.RetryAfterExactly | internal/rates/errors.go:36-42 | the Retry-After is that of the first transient error of the chain, outermost and leftmost, if positive |
| Rates.HeaderDelayExact | internal/rates/errors.go:54-62 | no delay comes of a number that is not positive; the conversion to nanoseconds is exact iff at most 9223372036 seconds |
| Resilient.StartsBounded | internal/rates/resilient/resilient.go:90-119 | the counting step: calls that start no earlier than their slots number at most 1 + (t - first slot) / interval by time t |
| GateRuns.InvStep | internal/rates/resilient/resilient.go:97-118 | every step keeps the shared field where the reservations moved it, and timers at their slots |
| Resilient.Resilient.constructor | internal/rates/resilient/resilient.go:38-55 | unusable options are replaced by the defaults; the gate starts open |
| Resilient.Resilient.ReserveSlot | internal/rates/resilient/resilient.go:97-106 | reading plus wait is the slot of the closed form, under reservations by anyone |
| Resilient.Resilient.Gate | internal/rates/resilient/resilient.go:92-119 | the slot is reserved even if the waiter is cancelled; the gate opens only to a live context or to a timer that wins |
| Resilient.Resilient.Delay | internal/rates/resilient/resilient.go:123-143 | the assigned-in-place delay is the specified one |
| Resilient.Resilient.Rate | internal/rates/resilient/resilient.go:58-88 | the retry loop reports what its specification says, for every context, clock and outcome sequence |
| Fallback.Fallback.Rate | internal/rates/fallback/fallback.go:56-80 | the object meets that specification and leaves the spare's rate limit alone unless it asks it |
| Cached.Cache.Rate | internal/rates/cached/cached.go:66-91 | the object meets the stack's specification; a hit reserves no slot in any rate limit |
| CacheRuns.InvStep | internal/rates/cached/cached.go:66-91 | every step keeps entries, stores and hits traceable to provider answers for their pair |
| CacheRuns.LastsForTtl | internal/rates/cached/cached.go:85-87 | overwrites only extend expiry: a stored key stays fresh for a whole TTL |
| CacheRuns.PastStep | internal/rates/cached/cached.go:72-87 | while a key is fresh each store uses up a call that was past its lookup |
| EndToEnd.InsideKeeps | internal/rates/cached/cached.go:66-91 | a step of a worker inside the cache keeps every reply backed by a stored provider answer for the pair the worker holds |
| EndToEnd.BothRun | cmd/server/main.go:99-113 | the service half of a joint run is a run of the service, the cache half one of the cache |
| StalePrice.LateRunEndsLate | internal/rates/cached/cached.go:72-77 | the run behind it, for every TTL and delay: a hit at the last instant, taken late, completes a row whose price is TTL - 1 + delay old |
| StalePrice.LateRunRuns | internal/rates/cached/cached.go:66-91 | that run is a legal run of service and cache |
| Cross.CrossPrice | internal/rates/cross.go:17-35 | the price, or the missing or bad rate error, of the loaded and anchored table |
| Cross.HonestPrice | internal/rates/cross.go:17-35 | from an honest reply with any base the price is T[quote]/T[base] iff the reply covers both sides |
| Cross.SomePriceIsNotDetermined | internal/rates/cross.go:18-21 | a reply with "usd" and "USD" of which the code makes one price or another, as the iteration order decides |
| Cross.PairSymbols | internal/rates/exchangeratesapi/provider.go:154-168 | the request lists each side other than the anchor once, in order, and can be split back |
| Cross.BeforeExactly | internal/rates/exchangeratesapi/provider.go:166 | the order of the symbols is the lexicographic one |
| Cross.ExchangePrice | internal/rates/exchangeratesapi/provider.go:125-136 | an API error or an empty unsuccessful reply is refused; any other is priced against its base |
| Cross.FrankfurterPrice | internal/rates/frankfurter/provider.go:106-117 | an empty reply is refused; an unnamed base is the pair's own |
| Metrics.QuotedApart | internal/metrics/metrics.go:76 | a quoted value ends itself: nothing printed behind it can be taken for a part of it |
| Metrics.SomeKey | internal/metrics/metrics.go:69-79 | a printed key with an escaped quote, a comma and a missing value |
| Metrics.CounterVec.Inc | internal/metrics/metrics.go:37-53 | exactly one counter goes up by one; keys stay in order, duplicate-free and equal to the counters that exist |
| Metrics.SecondsSum.Add | internal/metrics/metrics.go:135-141 | the loop adds once and loses nobody's addition, however often others interfere |
| Metrics.WeighPermutes | internal/metrics/metrics.go:135-141 | a total depends only on which observations were made, not on their order |
| Metrics.TotalsStep | internal/metrics/metrics.go:37-53 | every load, swap and add keeps sum, count, counters and key list right |
| Migrate.Database.Migrate | internal/storage/postgres/migrate.go:16-71 | a run, stopped anywhere, leaves what its specification says: body and record together or neither |
| Migrate.RunKeeps | internal/storage/postgres/migrate.go:38-70 | a run keeps recorded = committed, undoes nothing, and a nil return means every name is recorded |
| Migrate.SucceedsExactly | internal/storage/postgres/migrate.go:38-70 | a run returns nil iff every name can be checked and is recorded or can be committed |

## Left out

- HTTP handlers, middleware, OpenAPI, pprof, JSON, environment reading and logging: plumbing with single-branch mappings.
- Network calls, URL building, header handling and status-code classification in the providers: only symbol choice and the reading of a decoded reply are modelled.
- `GetUpdateRequest`, `GetQuote`, `Ping`, `ValidRequestID`: single reads or scans that would only add easy members.
- pgx, SQL parsing and transaction internals: a statement is one atomic step and a transaction is all or nothing.
- Liveness of the scheduler: that a worker or resync thread eventually runs is not claimed; `Progress.RoundsFinish` says what complete rounds achieve.
- Domain.ParseInsensitive: letters that become none of A to Z when upper-cased stay as they are in the model; no outcome depends on them, as only the dotless i and the long s become such a letter.
- Metrics.LabelKeyExactly: which characters outside ASCII the language prints unescaped is an input; label values that are not UTF-8 are not modelled.
- EndToEnd.CompletedPricesWereFresh: a cache that is switched off (TTL not positive) is not part of the joint run.
- Service.Service.Shutdown: one thread works through the queue, and how far it gets before the timeout is an input; concurrent workers are in `System.dfy`.
- Cross.CrossPrice: prices are reals, so IEEE rounding, infinities and the rounding of NUMERIC(20,10) are not modelled.
- Cross.PairSymbols: the library sort is written out for the at most two symbols a pair needs.
- Metrics.SecondsSum.Add: sums are reals and counters unbounded, so float rounding and the wrap at 2^64 are not modelled; interference is given per round, and `Metrics.SumIsSwapped` covers full interleavings.
- Rates.HeaderDelayExact: the HTTP-date form of Retry-After (section 10.2.3 of RFC 9110) is not modelled.
- Resilient.Resilient.ReserveSlot: saturation of time arithmetic at its 292-year range is not modelled; instants are natural numbers counted from the zero time.
- Resilient.Resilient.Rate: the metric and log calls of an attempt are not part of it; metrics are modelled in their own module.
- Storage.Storage.CreateUpdateRequest: interference is any sequence of inserts and status updates by other clients before each statement; row ids are positions in the table instead of random UUIDs.
- Linearisability of keyed creates to the atomic operation under interference, and one provider call per TTL under concurrent misses: the code gives neither.
- Migrate.Database.Migrate: two migrators at once are not modelled; the names are taken as already sorted and read.
