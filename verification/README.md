# Arkfile: accounting, throttling and key-lifecycle model

A Dafny 4.11 model of the stateful cores of Arkfile, with proofs of what those cores promise over whole
histories. `dafny verify dfyconfig.toml` checks the project.

**Form.** Code that changes state step by step is a method over the same fields: `Database.Db` holds the
billing tables and each SQL statement of a call is one assignment, with a rollback where the source has one;
`FloodGuardService`, `RateLimitManager`, `RevocationStore`, `LockoutTable`, `SystemKeys`, `Deployment` and
`JwtService` hold the fields of their Go counterparts. Each method is proved equal to a specification function
or to an explicit new state, and the theorems about histories are lemmas about those functions. Integers are
unbounded; where Go's int64 wraps and it matters, the wrap is written out (`Prelude.WrapInt64`). Durations and
instants are integers in nanoseconds.

**Failures.** A billing call takes the set of database statements that are refused (`Ledger.Faults`), loops take
one such set per row. Random draws, clock readings, the order in which the database lists rows, and the point at
which a process stops are parameters, so every theorem holds for all of them.

| file | models |
|---|---|
| `ledger.dfy`, `database.dfy`, `payments.dfy` | the credit ledger, payments, gifts, invoice settlement, reconciliation |
| `meter.dfy`, `sweep.dfy`, `overlapping_sweeps.dfy` | hourly charges, the daily sweep, sweeps that overlap ticks and each other |
| `billing_runs.dfy`, `settlement_periods.dfy`, `interleaving.dfy` | serial histories of all billing calls; settlements interleaved with everything else |
| `rates.dfy`, `runway.dfy`, `scheduler.dfy` | rate arithmetic, the projected runway, the tick and sweep loop |
| `flood_guard.dfy`, `mfa_lockout.dfy`, `rate_limit.dfy` | the three throttles |
| `revocation.dfy` | the revocation caches, serially and interleaved |
| `secrets_env.dfy`, `envelope.dfy` | the secrets file, the envelope re-wrap, the rotation protocol |
| `jwt_keys.dfy`, `jwt_rotation.dfy` | signing-key rings, rotation and retirement |
| `aad.dfy`, `chunks.dfy` | associated-data layouts, chunk ranges |

## Where the code differs from what it says

- *Reconciliation.* Every failed insert of a payment row is wrapped in a message that contains
  "duplicate transaction_id" (billing/payments.go:84), so `isDuplicateTransactionIDError` takes any insert failure
  for a duplicate and reconciliation skips the invoice without an error. A reconciliation that reports success
  leaves no orphan exactly when none of its inserts was refused (`Payments.ReconcileComplete`).
- *Double credit.* The tolerated-duplicate path commits the balance update without its row. The exact condition
  is `Payments.DoubleCredit`. It cannot arise while all payments come in through invoices
  (`Interleaving.InvoicesNeverDoubleCredit`); it can when `ProcessPayment` records the same provider id between
  the check and the transaction (`Interleaving.PaymentInTheGap`).
- *Sweep.* Charges ticked between the sweep's read and a user's reset are lost; the amount is exact
  (`Sweeping.SweepShortfall`). The scheduler's sweep and the sweep-now endpoint can overlap; what a second sweep
  drains again is exact too (`OverlappingSweeps.OverlappingSweepsExact`), and is nothing if sweeps do not overlap.
- *Run-out date.* From a balance of 2,562,048 hourly charges on, the projected date wraps an int64 of nanoseconds
  (`Runway.RunsOutDateExactIff`, `Runway.RunsOutDateWraps`).
- *Lockout.* The sharp bound on counted MFA failures in 24 hours without a success is 52, below two full windows
  of 30 (`MfaLockout.AtMost52InADay`, `MfaLockout.FiftyTwoReached`).
- *secrets.env.* The reader gives up on a line of 65,536 bytes or more, the writer does not. A rewritten file reads
  back exactly when no earlier line is that long; every file that could be read before can be read after.
- *Two lines for one master.* The rotation reads and rewrites the first ARKFILE_MASTER_KEY line of secrets.env, while
  loading the file into an environment keeps the last. After a completed rotation the service starts with the new
  master if and only if no later line assigns the variable again (`EnvelopeProtocol.ServiceFollowsIff`). No master
  is lost either way: a stop at any stage leaves one that opens every row (`EnvelopeProtocol.StopAnywhere`).
- *Key versions.* A rotation that stops after storing its key, followed by retiring that version, makes the next
  rotation reuse the number (`JwtRotation.StoppedRotationReuses`). In every history the next number is new if and
  only if the highest number ever used is still stored (`JwtRotation.NextVersionNewIff`), so a retirement keeps
  it new exactly when it spares the highest stored version (`JwtRotation.RetirementKeepsNewIff`).
- *Stopped rotations and restarts.* The active-version pointer is first written by a rotation. A rotation that stops
  between its two stores leaves the old key active after a restart, except in a tier that has no pointer yet, which
  then signs with the new key (`JwtRotation.StoppedBeforePointer`).
- *Rate limit.* Loads and saves that fail are ignored. A history admits exactly the limit, and goes on doing so, if and
  only if it forgot nothing: no restart dropped a count that had not been saved, and no row that mattered failed to
  load (`RateLimit.ExactIffNothingForgotten`). A process that is not restarted forgets nothing.
- *Penalties.* The rate limiter's penalties respect the configured maximum, and grow, exactly when that maximum is
  at least 30 seconds or nothing is escalated (`RateLimit.PenaltySoundIff`).
- *Chunk requests.* Owner and share handlers disagree on files without a chunk count and on negative chunk sizes;
  `Chunks.HandlersAgreeIff` and `Chunks.NegativeSizeAgreeIff` say exactly when. The index parser accepts the empty
  string as 0 and wraps at 2^63.
- *AAD.* Metadata layouts collide at fields of 2^32 bytes. Below that, a metadata layout is also a chunk's if and only
  if field name and owner have eight bytes together (`Aad.MetadataIsChunkIff`).

## Model

| member | source | states |
|---|---|---|
| `Ledger.UniqueMeansAtMostOne` | database/unified_schema.sql:395-407 | the UNIQUE column means at most one row, counted, per transaction id |
| `Ledger.PostExact` | billing/payments.go:53-113 | an entry succeeds exactly when no statement is refused and the id is new; then one row is appended with balance_after = old balance + amount and the account holds that; invoices, meters and users never move |
| `Ledger.EntryKeepsDrift` | billing/payments.go:66-88 | an entry leaves the distance between balance and ledger sum as it was, for every user |
| `Ledger.EntryKeepsInv` | billing/payments.go:34-113 | an entry preserves: balances are ledger sums, each balance_after is a prefix sum, ids are unique |
| `Database.Db.Rollback` | billing/payments.go:21-25 | a rolled-back transaction changes no table |
| `Payments.ProcessPaymentInTx` | billing/payments.go:34-113 | the statement-by-statement body yields the specified tables and answer, also when it stops half-way |
| `Payments.PostEntry` | billing/payments.go:53-113 | the shared read, create, update, insert sequence yields the specified tables after each possible refusal |
| `Payments.ProcessPayment` | billing/payments.go:16-32 | a payment with its transaction yields the specified tables and answer |
| `Payments.GiftCredits` | billing/gift.go:29-122 | likewise for a gift |
| `Payments.UpdateInvoiceStatus` | models/payments.go:87-92 | only the named invoice's status changes; an unknown invoice changes nothing |
| `Payments.SettlePaymentInvoice` | billing/payments.go:117-183 | likewise for a settlement, over all its paths |
| `Payments.SettlePendingInvoice` | billing/payments.go:145-182 | the credit-and-mark transaction, including the tolerated duplicate |
| `Payments.ReconcilePaidInvoices` | billing/reconcile.go:12-30 | likewise for the loop over orphan invoices, with its repaired count and its error; a failing listing changes nothing |
| `Payments.PayExact` | billing/payments.go:16-113 | a payment succeeds exactly when user and provider id are given, the amount is positive, nothing is refused and the id is new; a success enters one row; a failure changes nothing |
| `Payments.PaymentRefusals` | billing/payments.go:34-86 | which error each bad argument and a duplicate id give |
| `Payments.SetStatusExact` | models/payments.go:87-92 | one invoice's status is written and nothing else |
| `Payments.SettleRefusals` | billing/payments.go:117-182 | the errors for no invoice, an expired or failed one, and one that is pending no longer |
| `Payments.GiftExact` | billing/gift.go:29-122 | a gift succeeds exactly when all four arguments are valid and nothing is refused; all or nothing |
| `Payments.SettleExact` | billing/payments.go:117-183 | exactly when a settlement succeeds; success leaves a credit under the provider id, moves money only by a new row of the invoice amount, and leaves a current invoice paid; failure changes nothing; other invoices are untouched |
| `Payments.SettleReplay` | billing/payments.go:125-136 | replaying a successful settlement, whatever the invoice's status by then, moves no money |
| `Payments.LateSettleDrift` | billing/payments.go:138-182 | the rest of a settlement after its check, from any later state, keeps all drifts, except a double credit, which puts the payer ahead by the invoice amount |
| `Payments.LateSettleKeepsDriftIff` | billing/payments.go:145-164 | balance and ledger stay together if and only if the double-credit condition does not hold |
| `Payments.ReconcileRepairs` | billing/reconcile.go:12-30 | a reconciliation without error credits exactly the listed invoices whose insert was not refused, and no other provider id |
| `Payments.ReconcilePosts` | billing/reconcile.go:18-28 | a reconciliation, ending well or not, appends one row per repaired invoice, in the listed order, for that invoice's payer, amount and provider id; each balance grows by the amounts of the user's repaired invoices; nothing else changes |
| `Payments.ReconcileComplete` | billing/reconcile.go:12-30 | no orphan is left if and only if no listed invoice met a refused insert; the repaired count is exact |
| `Payments.ReconcileAgain` | billing/reconcile.go:12-30 | a second reconciliation after a complete one repairs 0 and changes nothing |
| `Metering.HourlyChargeExactIff` | billing/meter.go:56-62 | the charge is floor(bytes*rate/2^30) if and only if the product is below 2^63 |
| `Metering.TickCharge` | billing/meter.go:44-62 | nothing at or below the baseline; above it, while the product fits an int64, the charge is its floor by 2^30; never negative, whatever the wrap |
| `Metering.TickUser` | billing/meter.go:30-81 | one tick yields the specified accumulator and error |
| `Metering.TickAllActiveUsers` | billing/meter.go:93-127 | the loop yields the specified accumulators, success count and error count, also for a listing that fails or breaks off |
| `Metering.TickExact` | billing/meter.go:30-81 | a tick adds exactly its charge to that user's accumulator, stamps it, and touches neither the watermark nor anybody else; exactly when it fails |
| `Metering.TickAllExact` | billing/meter.go:93-127 | every listed user is charged once and nobody else; the error count is the number of users whose tick fails, the success count that of the others |
| `Metering.WhoIsCharged` | billing/meter.go:98-101 | without faults, exactly approved users are charged, admins only if included, each what the present storage costs |
| `Metering.TickAllOrderIrrelevant` | billing/meter.go:93-127 | the listing order of users does not affect any charge |
| `Sweeping.SettlementPeriod` | billing/sweep.go:181-206 | the settled period starts at the previous watermark, even a future one, and its ticks are its whole hours but at least 1; without a readable watermark it is the last day, 24 ticks |
| `Sweeping.ComputeSettlementPeriod` | billing/sweep.go:181-206 | the assignments compute that period |
| `Sweeping.SettleOneUser` | billing/sweep.go:91-172 | one user's transaction yields the specified tables and new balance |
| `Sweeping.SweepAllUsers` | billing/sweep.go:26-80 | the sweep yields the specified tables and summary; a failing listing changes nothing |
| `Sweeping.SettleQueue` | billing/sweep.go:63-80 | the loop settles the queue, going on past failing users, and sums up |
| `Sweeping.SettleOneExact` | billing/sweep.go:91-172 | a settlement enters one usage row for the amount read, empties the accumulator, moves the watermark, and is all or nothing |
| `Sweeping.SettleOneMoves` | billing/sweep.go:121-163 | balance and drained sum move by the amount read, whatever the accumulator holds by then |
| `Sweeping.SweepGaps` | billing/sweep.go:31-77 | the shortfall equation from any point of the sweep, for charges already ticked since the read |
| `Sweeping.SweepShortfall` | billing/sweep.go:31-158 | with ticks between settlements, unbilled plus drained grows by what was ticked minus exactly the charges between the read and that user's committed reset |
| `Sweeping.SweepConserves` | billing/sweep.go:26-172 | a sweep alone keeps unbilled + drained, and balance - unbilled, for every user, whichever settlements fail |
| `Sweeping.SweepEmpties` | billing/sweep.go:58-77 | a listed user without faults ends with an empty accumulator |
| `Sweeping.SweepSummaryMatchesLedger` | billing/sweep.go:58-80 | the summary equals the count, total and negative balances of the rows the sweep appended, recomputed from the rows alone |
| `OverlappingSweeps.EventKeeps` | billing/sweep.go:31-163 | with any number of sweeps under way, every queued settlement's user has, unbilled, the amount read (nothing, if another sweep settled him since) and what was ticked since |
| `OverlappingSweeps.EventMoves` | billing/sweep.go:121-163 | each event moves unbilled plus drained by its tick, a repeated drain, or a wiped-out charge |
| `OverlappingSweeps.OverlapExact` | main.go:408-419 | over any interleaving of sweeps and ticks, unbilled plus drained is off by exactly what was drained again minus what was wiped out; balances still match the ledger |
| `OverlappingSweeps.OverlappingSweepsExact` | main.go:408-419 | the same from any tables with no sweep under way |
| `OverlappingSweeps.DrainedTwice` | main.go:408-419 | two sweeps that read one queue both charge its first user the amount read |
| `OverlappingSweeps.OneAtATimeDrainsOnce` | billing/scheduler.go:121-139 | sweeps that do not overlap drain nothing again |
| `BillingRuns.StepGrows` | billing/payments.go:34-183 | every billing call with any faults keeps all earlier rows, all drifts and the ledger invariant |
| `BillingRuns.LedgerAlwaysBalances` | billing/payments.go:34-183 | in every serial history from empty tables: balance = sum of ledger amounts, balance_after = prefix sum, at most one credit per provider id |
| `BillingRuns.LedgerAppendOnly` | database/unified_schema.sql:395-407 | in every serial history, rows are never changed or removed and a credit stays the only one |
| `BillingRuns.StepKeepsInvoices` | models/payments.go:87-92 | no call but the creation of an invoice changes more than statuses, and provider ids stay unique |
| `BillingRuns.RunKeepsUniqueProviderIds` | database/unified_schema.sql:439-451 | provider ids stay unique over every history |
| `BillingRuns.ReconcileAfterAnyRun` | billing/reconcile.go:12-30 | after any serial history, a reconciliation without error leaves no orphan if and only if none of its inserts was refused |
| `BillingRuns.StepConserves` | billing/meter.go:56-81 | every call changes unbilled + drained by exactly what it ticks to the user |
| `BillingRuns.ChargesConserved` | billing/sweep.go:121-163 | in every serial history, everything ever ticked to a user is unbilled or drained by usage rows |
| `SettlementPeriods.StepKeeps` | billing/sweep.go:139-163 | every call keeps the watermark equal to the end of the user's last usage row, and periods abutting |
| `SettlementPeriods.UsagePeriodsAbut` | billing/sweep.go:181-206 | in every serial history, a user's usage rows cover consecutive periods without gap or overlap |
| `Interleaving.InterleavedDrift` | billing/payments.go:117-183 | with settlements split at their check and interleaved with everything, balances run ahead of the ledger by exactly the double-credited amounts |
| `Interleaving.PaymentInTheGap` | billing/payments.go:125-164 | a payment recorded in the gap is credited twice and recorded once |
| `Interleaving.NextKeeps` | billing/payments.go:117-183 | every event of a system that pays through invoices keeps: no pending invoice has a credit, open settlements hold invoices that were read |
| `Interleaving.InvoicesNeverDoubleCredit` | billing/payments.go:117-183 | in such a system no interleaving ever double-credits |
| `Interleaving.InvoicesKeepLedger` | billing/payments.go:117-183 | from empty tables, balances equal ledger sums after every such interleaving |
| `Rates.ComputeRate` | billing/rates.go:192-213 | the nested truncation floor(floor(p/1024)/720) is the single floor(p/737280); a price that is not positive is refused |
| `Rates.MonthlyBillTwoSided` | billing/rates.go:192-213 | 720 hourly charges never exceed b*p/2^40 and fall short by less than 720*(b/2^30+1), below overflow |
| `Runway.RunsOutDateExactIff` | handlers/billing_projection.go:69-112 | a charged, nonnegative balance gets a run-out instant, exact if and only if the balance is below 2,562,048 hourly charges |
| `Runway.RunsOutDateWraps` | handlers/billing_projection.go:98-112 | a concrete balance and rate past that limit |
| `Runway.VerdictsMean` | handlers/billing_projection.go:69-112 | which verdict whom gets: by balance, storage above the baseline, rate, and whether a tick would charge anything; the hours are balance by charge |
| `Runway.MeterBurnsLinearly` | billing/meter.go:56-81 | n ticks lower balance - unbilled by n hourly charges, however sweeps and other users' ticks interleave |
| `Runway.FinalSweepEmpties` | billing/sweep.go:26-80 | a sweep without faults for the user leaves nothing unbilled |
| `Runway.RunwayIsExact` | handlers/billing_projection.go:69-112 | the projected hours are the greatest number of ticks that, with a sweep after them, leave the balance nonnegative |
| `Scheduler.BoundaryIsLeast` | billing/scheduler.go:173-184 | the target is the least multiple of the interval after now, at most one interval away |
| `Scheduler.ParseHHMM` | billing/scheduler.go:204-217 | an accepted time lies within a day |
| `Scheduler.ParseHHMMInverse` | billing/scheduler.go:204-229 | the parser accepts exactly the formatted times of day, each as itself |
| `Scheduler.SleepUntil` | billing/scheduler.go:145-164 | waits in steps of at most a second, never past the target by its own request, and ends true exactly at or after the target |
| `Scheduler.Run` | billing/scheduler.go:67-140 | the loop's targets and ticks; for HH:MM it sweeps in exactly the first round of a date that has a rate at or after that time, and never for a text that is no time |
| `Scheduler.SweepsAtTimeOfDay` | billing/scheduler.go:190-200 | a round sweeps if and only if it has a rate, that many minutes of its date have passed, and no earlier round of the date had both |
| `Scheduler.NoTimeNoSweep` | billing/scheduler.go:190-217 | a text that is no time of day never sweeps |
| `Scheduler.FormatAt1505` | billing/scheduler.go:204-217 | the notation at one time of day |
| `Scheduler.TargetsIncrease` | billing/scheduler.go:89-139 | tick targets strictly increase |
| `Scheduler.LastSweepIsLatest` | billing/scheduler.go:121-139 | lastSweepDate is the date of the latest round that could sweep |
| `Scheduler.SweepsIffFirst` | billing/scheduler.go:190-200 | a round sweeps if and only if it is the first of its date that has a rate at or after the configured time |
| `Scheduler.OneSweepPerDate` | billing/scheduler.go:67-140 | a date is never swept twice, and is swept if one of its rounds could |
| `FloodGuard.FloodGuardService.RecordUnauthorizedHit` | handlers/flood_guard.go:156-245 | the field-by-field updates yield the specified tracker and penalty |
| `FloodGuard.FloodGuardService.IsBlocked` | handlers/flood_guard.go:249-272 | the specified block answer and whole seconds, at least 1 |
| `FloodGuard.FloodGuardService.Cleanup` | handlers/flood_guard.go:80-91 | removes exactly the trackers that are silent and unblocked |
| `FloodGuard.HitKeepsInv` | handlers/flood_guard.go:156-245 | a hit keeps penaltyUntil <= lastHit + penalty of the peak tier, and the tier at least what the hits say |
| `FloodGuard.HitNeverShortens` | handlers/flood_guard.go:216-245 | a hit never moves penaltyUntil back |
| `FloodGuard.PenaltyTestRedundant` | handlers/flood_guard.go:84-89 | in reachable trackers cleanup's silence test alone decides |
| `FloodGuard.AlikeHit` | handlers/flood_guard.go:131-245 | trackers alike up to a lapsed penalty, or long forgotten, answer alike and stay alike |
| `FloodGuard.CleanupInvisible` | handlers/flood_guard.go:80-91 | by a bisimulation, all answers of a history equal those of the history without its cleanups |
| `FloodGuard.CleanupInvisibleFromStart` | handlers/flood_guard.go:80-91 | the same from an empty service |
| `FloodGuard.BlockHolds` | handlers/flood_guard.go:156-272 | a block announced for a moment holds then, with no shorter wait, whatever happens in between |
| `FloodGuard.HitsAddUp` | handlers/flood_guard.go:156-209 | n hits within a window leave hit count n, the first and last times, and the tier for n |
| `FloodGuard.PenaltySchedule` | handlers/flood_guard.go:94-127 | the n-th hit costs 0, 5 s, 30 s, 2 min, 10 min, 1 h from 0, 10, 20, 40, 60, 80 hits on |
| `FloodGuard.LastHit` | handlers/flood_guard.go:210-216 | the last of n hits within a window sets the end of the block, from ten hits on and not before |
| `FloodGuard.Escalation` | handlers/flood_guard.go:156-272 | the n-th hit within a window returns the penalty for n, and the entity is then blocked for exactly that long |
| `FloodGuard.NewWindow` | handlers/flood_guard.go:131-175 | a hit more than ten minutes after the window's first, however recent the last, counts as 1 in a new window at the remembered tier less one per whole hour of silence, and costs that tier's penalty |
| `FloodGuard.SameWindow` | handlers/flood_guard.go:177-216 | a hit inside the window counts on, at the higher of remembered tier and tier of the count |
| `FloodGuard.LongHistory` | handlers/flood_guard.go:156-245 | for every time-ordered history over any number of windows, count, first hit, tier and penalty are those reckoned window by window |
| `FloodGuard.SlowHitsNeverPenalised` | handlers/flood_guard.go:156-245 | an entity of whose hits no ten in a row fall within ten minutes is never penalised |
| `FloodGuard.BlockedExactly` | handlers/flood_guard.go:249-272 | blocked up to and including the penalty's end, for the whole seconds left or one |
| `FloodGuard.CleanupKeepsRecent` | handlers/flood_guard.go:80-91 | a cleanup keeps exactly the trackers with a hit in the last six hours |
| `Revocation.RevocationStore.InvalidateUserRevocationCache` | auth/token_revocation.go:39-43 | drops that user's entry only |
| `Revocation.RevocationStore.GetUserRevocationTimeCached` | auth/token_revocation.go:47-69 | alone, a lookup answers with the table's present row; it fails exactly when the table does and no entry is younger than 30 s; it stamps what it stores |
| `Revocation.RevocationStore.RevokeAllUserJWTTokens` | auth/token_revocation.go:213-219 | writes the row and drops the entry, or changes nothing; the cache stays coherent |
| `Revocation.RevocationStore.RevokeToken` | auth/token_revocation.go:98-133 | succeeds exactly for a token that parses, has an id and is not yet revoked; table and cache move together |
| `Revocation.RevocationStore.InitializeCache` | auth/token_revocation.go:179-208 | caches exactly the unexpired rows on top of what was there; a load that breaks off caches some of them and stays uninitialised |
| `Revocation.RevocationStore.IsRevoked` | auth/token_revocation.go:136-176 | the answer is whether the row exists, whatever the cache holds |
| `Revocation.RevocationStore.CleanupExpiredTokens` | auth/token_revocation.go:222-236 | removes exactly the expired rows and resets the cache, or changes nothing |
| `RevocationInterleaved.StepKeeps` | auth/token_revocation.go:25-69 | every step of every lookup, write and invalidation keeps: cached values were held at some instant since their stamp |
| `RevocationInterleaved.LookupsBoundedlyStale` | auth/token_revocation.go:47-69 | in every interleaving a lookup returns a value the table held after start - 30 s and no later than its end |
| `RevocationInterleaved.RevocationSeen` | auth/token_revocation.go:213-219 | a lookup that starts 30 s or more after a write sees that write or a later one |
| `RevocationInterleaved.RevokedTokensRejected` | auth/token_revocation.go:246-290 | then every token issued before the revocation is rejected |
| `RevocationInterleaved.LaterTokensAccepted` | auth/token_revocation.go:280-286 | no token issued at or after every revocation of its user is ever rejected |
| `RevocationInterleaved.StaleWithinTTL` | auth/token_revocation.go:39-69 | the bound is sharp: a lookup that read before a revocation can keep the old answer alive for any later lookup under 30 s after its start |
| `MfaLockout.Backoff` | auth/mfa_lockout.go:45-60 | waits lie between 1 and 60 minutes, and the shift exponent between 0 and 19 |
| `MfaLockout.RefusedExactly` | auth/mfa_lockout.go:34-62 | an attempt is refused exactly within 24 hours of the window's start, after 30 failures, or after 10 before the last failure plus the wait; the announced time is the difference |
| `MfaLockout.HardCapUntilWindowEnds` | auth/mfa_lockout.go:39-46 | after 30 failures every attempt is refused before the end of the window, which is the announced moment, and let through at it |
| `MfaLockout.RetryAfterExact` | auth/mfa_lockout.go:34-62 | a refused attempt is let through at the announced moment and not before, unless a soft wait outlasts the window |
| `MfaLockout.AttemptExact` | auth/mfa_lockout.go:102-143 | a failure counts on inside the window and opens a new one after it, a success clears, anything else leaves the row |
| `MfaLockout.LockoutTable.RecordMFAFailure` | auth/mfa_lockout.go:102-138 | increments in the window or opens a new one, for that user only; nothing if the table fails |
| `MfaLockout.LockoutTable.ClearMFAFailures` | auth/mfa_lockout.go:140-143 | deletes that user's row only; nothing if the table fails |
| `MfaLockout.LockoutTable.Verify` | auth/mfa_totp.go:17-84 | an attempt checks, then records or clears; a failing read refuses it, a failing write leaves the row; other users' rows are untouched |
| `MfaLockout.TotalBackoffAddsUp` | auth/mfa_lockout.go:11-16 | the closed form of the minutes a window has taken adds up the individual waits |
| `MfaLockout.WindowCapped` | auth/mfa_lockout.go:102-138 | in every time-ordered history one window holds at most 30 failures, its last no earlier than the waits allow |
| `MfaLockout.BackoffsAddUp` | auth/mfa_lockout.go:34-62 | between two counts in a window at least the waits in between have passed |
| `MfaLockout.TenthToThirtieth` | auth/mfa_lockout.go:34-62 | at least 903 minutes lie between a window's 10th and 30th failure |
| `MfaLockout.AtMost52InADay` | auth/mfa_lockout.go:34-162 | any half-open 24 hours without a success count at most 52 failures, after any earlier history |
| `MfaLockout.FiftyTwoReached` | auth/mfa_lockout.go:34-162 | a concrete history that counts 52 |
| `RateLimit.CalculatePenalty` | handlers/middleware.go:243-258 | the loop computes the specified escalation |
| `RateLimit.PenaltyIsGeometric` | handlers/middleware.go:243-258 | with a whole multiplier m the v-th penalty is min(30 s * m^(v-1), maximum) |
| `RateLimit.PenaltyStep` | handlers/middleware.go:243-258 | for any multiplier of at least 1, each penalty is the one before times the multiplier, cut to nanoseconds and capped; the first is 30 s |
| `RateLimit.PenaltyPastMaximum` | handlers/middleware.go:243-258 | past the configured number of violations it is the maximum |
| `RateLimit.PenaltySoundIff` | handlers/middleware.go:243-258 | penalties never exceed the maximum, and never shrink, if and only if the maximum is at least 30 s or nothing is escalated |
| `RateLimit.RateLimitManager.SaveStateToDB` | handlers/middleware.go:284-308 | the row becomes the cached state, or nothing changes |
| `RateLimit.RateLimitManager.CheckRateLimit` | handlers/middleware.go:172-240 | one check yields the specified cache, row and answer |
| `RateLimit.CheckExact` | handlers/middleware.go:172-240 | a check is refused exactly under penalty or at the limit; it counts on and saves its own state, unless under penalty, and touches no other |
| `RateLimit.DisabledRefusesNothing` | handlers/middleware.go:173-175 | limiting that is switched off refuses and counts nothing |
| `RateLimit.RateLimitManager.Cleanup` | handlers/middleware.go:321-343 | drops exactly the states and rows older than the retention, from both |
| `RateLimit.IntactStep` | handlers/middleware.go:172-240 | while the window lasts, a manager that remembers all requests up to the limit answers right and goes on remembering, unless the step forgets; then it answers wrong or is short from there on |
| `RateLimit.BrokenStep` | handlers/middleware.go:172-240 | a manager that is short stays short until it answers wrong, which it does once the limit is reached |
| `RateLimit.AdmitsExactlyLimit` | handlers/middleware.go:172-240 | while limiting is enabled, over any history with restarts, cleanups and failing loads and saves that forgets nothing, the k-th check of a window is refused exactly when k exceeds the limit |
| `RateLimit.BrokenShows` | handlers/middleware.go:172-240 | what is short shows as soon as the requests go past the limit |
| `RateLimit.ForgettingShows` | handlers/middleware.go:172-308 | what a history forgot shows at the latest after limit + 1 further requests |
| `RateLimit.ExactIffNothingForgotten` | handlers/middleware.go:172-308 | every further request of the window is answered exactly if and only if no restart dropped an unsaved count and no row that mattered failed to load |
| `RateLimit.CacheForgetsNothing` | handlers/middleware.go:184-196 | without a restart nothing is forgotten, whatever loads and saves fail |
| `RateLimit.FirstLimitRequestsAdmitted` | handlers/middleware.go:172-240 | from an empty table, a process that is not restarted admits the first limit requests of a window and no others, under any faults |
| `RateLimit.SavedForgetsNothing` | handlers/middleware.go:261-308 | with loads and saves that succeed, restarts forget nothing either |
| `RateLimit.UnsavedRequestForgotten` | handlers/middleware.go:261-308 | a limit of one, a failing save and a restart admit two requests |
| `RateLimit.PenaltiesAreDeserved` | handlers/middleware.go:211-258 | in every history, with any faults, cache and row each say that the k-th counted request over the limit was the k-th violation, penalised from its own moment for the k-th penalty |
| `SecretsEnv.HexRoundTrip` | auth/envelope_rotation_apply.go:149-153 | hexadecimal text decodes to the bytes it was made from |
| `SecretsEnv.UpperHexRoundTrip` | auth/envelope_rotation_apply.go:149-153 | upper-case text decodes to the same bytes |
| `SecretsEnv.DecodesIff` | auth/envelope_rotation_apply.go:149-153 | text decodes exactly if it has an even number of characters, all hexadecimal digits |
| `SecretsEnv.TrimPadded` | auth/envelope_rotation_apply.go:142-149 | trimming takes the white space off both ends and nothing else |
| `SecretsEnv.PaddedKeyLine` | auth/envelope_rotation_apply.go:142-158 | a padded key line says what its text decodes to, or is a decoding or length error |
| `SecretsEnv.CommentsIgnored` | auth/envelope_rotation_apply.go:143-145 | a comment is no key line and assigns nothing |
| `SecretsEnv.SplitThenJoin` | auth/envelope_rotation_apply.go:181-195 | splitting at line breaks and joining gives the file back |
| `SecretsEnv.JoinThenSplit` | auth/envelope_rotation_apply.go:181-195 | joining lines without breaks and splitting gives the lines back |
| `SecretsEnv.ReadMasterKeyFromSecretsEnv` | auth/envelope_rotation_apply.go:134-164 | the first key line decides, unless an overlong line or nothing comes first |
| `SecretsEnv.ReplaceKeyLine` | auth/envelope_rotation_apply.go:181-192 | in place, the first key line and no other element changes; true exactly if there is one |
| `SecretsEnv.RewriteMasterKeyInSecretsEnv` | auth/envelope_rotation_apply.go:170-214 | the new content, or none when there is no key line |
| `SecretsEnv.ReadFirstKeyLine` | auth/envelope_rotation_apply.go:134-164 | a read gives the first key line's value if and only if no line up to it is overlong |
| `SecretsEnv.RewriteThenRead` | auth/envelope_rotation_apply.go:134-214 | after a rewrite all other lines are unchanged and in place, and the read gives the new master if and only if no earlier line is overlong |
| `SecretsEnv.ReadableStaysReadable` | auth/envelope_rotation_apply.go:134-214 | a file that could be read gives the new master after the rewrite |
| `SecretsEnv.LoadSecretsEnvFile` | database/maintenance.go:61-83 | the loop leaves in the environment what the lines assign to the variable, or stops at an overlong line |
| `SecretsEnv.LastAssignmentWins` | database/maintenance.go:61-83 | the last line that assigns the variable decides |
| `SecretsEnv.PaddedNameAssigns` | database/maintenance.go:68-81 | a line that names the variable, padded around name, equals sign and value, assigns the value |
| `SecretsEnv.KeyLineAssigns` | auth/envelope_rotation_apply.go:142-157 | a key line that the rotation can read assigns the variable that same master |
| `SecretsEnv.InheritedIrrelevant` | cmd/arkfile-admin/envelope_rotation_commands.go:142-157 | with a readable key line, what the environment held before makes no difference |
| `SecretsEnv.SameMaster` | auth/envelope_rotation_apply.go:69-75 | with one line for the variable, the rotation and its key manager hold the same master |
| `SecretsEnv.StartsWithNewIff` | auth/envelope_rotation_apply.go:181-195 | after a rewrite a process starts with the new master if and only if no later line assigns the variable |
| `Envelope.SystemKeys.ReencryptAllSystemKeys` | crypto/envelope_rotation.go:41-136 | succeeds exactly when both masters have 32 bytes, no write is refused and every row but the EntityID one opens; then every row is re-wrapped; otherwise nothing changes |
| `Envelope.SystemKeys.WriteBuffer` | crypto/envelope_rotation.go:118-127 | every listed row becomes its buffered version |
| `Envelope.SystemKeys.VerifyAllSystemKeysDecryptable` | crypto/envelope_rotation.go:142-175 | true with the full count exactly when every row opens |
| `Envelope.RewrapTransparent` | crypto/envelope_rotation.go:41-136 | after a re-wrap every row opens under the new master to its old plaintext (EntityID: the fresh one) and under no other |
| `EnvelopeProtocol.AdmittedExactly` | auth/envelope_rotation_apply.go:69-88 | a rotation is admitted exactly if no line is overlong, first key line and last assignment give 32 bytes, there are full-tier signing keys that all open under the latter, and the mandate is unused |
| `EnvelopeProtocol.NotAdmittedWithoutKeyLine` | auth/envelope_rotation_apply.go:72-75 | without a key line none is |
| `EnvelopeProtocol.Deployment.ApplyEnvelopeMasterRotation` | auth/envelope_rotation_apply.go:37-130 | the exact stage reached for every stop and refusal, the disk specified for it, and success exactly at the last one |
| `EnvelopeProtocol.Deployment.RewrapAndInstall` | auth/envelope_rotation_apply.go:117-129 | re-wrap, install, verify: secrets.env changes only after the rows have |
| `EnvelopeProtocol.OverwrittenIsCurrent` | auth/envelope_rotation_apply.go:97-112 | a recovery file that an admitted rotation overwrites, in the same second, holds no master that secrets.env lacks |
| `EnvelopeProtocol.DrawnIsCurrent` | auth/envelope_rotation_apply.go:89-92 | a drawn master that opens the old table is the one in use |
| `EnvelopeProtocol.StoppedEarly` | auth/envelope_rotation_apply.go:86-117 | a stop before the re-wrap leaves table, secrets.env and all other recovery files as they were |
| `EnvelopeProtocol.StoppedLate` | auth/envelope_rotation_apply.go:117-129 | after it the recovery file holds a master that opens every row |
| `EnvelopeProtocol.StopAnywhere` | auth/envelope_rotation_apply.go:37-130 | after a stop at any stage secrets.env or a recovery file holds a master that opens every row if and only if one did before or the re-wrap went through; no condition on files or clock |
| `EnvelopeProtocol.Completed` | auth/envelope_rotation_apply.go:97-129 | a completed rotation: every row opens under the new master to its old plaintext (EntityID: the fresh one), backup and recovery file exist |
| `EnvelopeProtocol.InstalledFile` | auth/envelope_rotation_apply.go:121-123 | and secrets.env says the new master and differs in no other line |
| `EnvelopeProtocol.ServiceFollowsIff` | cmd/arkfile-admin/envelope_rotation_commands.go:141-157 | the service then starts with the new master if and only if no later line assigns the variable |
| `EnvelopeProtocol.CanComplete` | auth/envelope_rotation_apply.go:76-129 | a table that opens under the master in secrets.env can be rotated to the end |
| `EnvelopeProtocol.OneLineCanComplete` | auth/envelope_rotation_apply.go:69-75 | with one line for the variable, a table that the service can open can be rotated to the end |
| `EnvelopeProtocol.NeverLost` | auth/envelope_rotation_apply.go:37-130 | over every history of stopping rotations, operator recoveries, key writes and deletions a master for the table is kept |
| `EnvelopeProtocol.MandateUsedOnce` | auth/envelope_rotation_mandate.go:94-109 | a mandate that was consumed is never admitted again, whatever follows |
| `JwtKeys.OrderedCovers` | auth/keys.go:125-181 | the verify order holds every stored version once, the active one first |
| `JwtKeys.RingVerifies` | auth/keys.go:125-181 | a ring verifies exactly the signatures of stored seeds |
| `JwtKeys.ListJWTVersions` | auth/keys.go:183-197 | the listed versions, sorted, whatever the listing order |
| `JwtKeys.RingFollowsPointer` | auth/keys.go:142-147 | the ring signs with the version the pointer row names, if stored, else with the highest |
| `JwtKeys.LoadJWTRing` | auth/keys.go:125-181 | a load bootstraps version 1 in an empty tier; it signs under the pointer's version if that is stored, else under the highest, with its stored seed |
| `JwtKeys.BuildVerifyPubs` | auth/keys.go:172-180 | the loop lists the active key, then the others in ascending order |
| `JwtRotation.JwtService.LoadJWTKeys` | auth/keys.go:75-80 | loads each tier that is not loaded, and only that |
| `JwtRotation.JwtService.ReloadJWTKeys` | auth/keys.go:84-99 | both rings are replaced by what the tables say |
| `JwtRotation.JwtService.RotateJWTSigningKeys` | auth/jwt_rotation.go:23-70 | the state of both tiers after a stop at any of the four stores, and after the reload |
| `JwtRotation.JwtService.RetireJWTKeyVersion` | auth/jwt_rotation.go:76-105 | refuses exactly the versions active in memory; the state of both tiers after a stop at any deletion |
| `JwtRotation.EnsureRingLoaded` | auth/keys.go:101-120 | a loaded ring is kept, an unloaded one is built |
| `JwtRotation.NextOf` | auth/jwt_rotation.go:49-60 | the next version is one above the highest stored, hence not stored |
| `JwtRotation.ListKeyIDs` | crypto/key_manager.go:343-362 | each stored version once, in some order |
| `JwtRotation.UnretiredTokensVerify` | auth/jwt_rotation.go:23-105 | in every history, with stops anywhere and restarts, a token of an unretired version verifies against the ring in memory and against the one the next load would build |
| `JwtRotation.ActiveKeyStays` | auth/keys.go:125-181 | the active version in memory is always stored, under the seed it signs with |
| `JwtRotation.DeletionAndLoad` | auth/jwt_rotation.go:88-100 | a deletion takes one key and nothing else; a load leaves a loaded ring alone |
| `JwtRotation.StoppedBeforePointer` | auth/jwt_rotation.go:62-68 | a rotation stopped between its stores, then a restart: the pointer's version stays active; a tier without a pointer signs with the new key |
| `JwtRotation.StoppedAfterPointer` | auth/jwt_rotation.go:65-68 | with the pointer written the new key is active after a restart |
| `JwtRotation.RotationOnTop` | auth/jwt_rotation.go:49-70 | a completed rotation uses a number above all used before and makes it active with the new seed |
| `JwtRotation.VersionsNeverReused` | auth/jwt_rotation.go:23-70 | when all rotations complete, numbers strictly increase and are never reused, across retirements and restarts |
| `JwtRotation.EventKeepsGapless` | auth/jwt_rotation.go:49-105 | after every event the numbers used are exactly those from 1 to some top |
| `JwtRotation.NextVersionNewIff` | auth/jwt_rotation.go:49-60 | over all histories with stops anywhere, the next number is new, and above all earlier ones, if and only if the highest number ever used is still stored |
| `JwtRotation.RetirementKeepsNewIff` | auth/jwt_rotation.go:76-105 | a deletion keeps the next number new if and only if it spares the highest stored version |
| `JwtRotation.StoppedRotationReuses` | auth/jwt_rotation.go:49-105 | a rotation stopped after its store, then a retirement, makes the next rotation reuse the number with another seed |
| `Aad.AppendLenPrefixedString` | crypto/aad.go:130-136 | appends the four-byte length, modulo 2^32, and the bytes |
| `Aad.AppendUint64BE` | crypto/aad.go:139-143 | appends eight bytes, most significant first |
| `Aad.PutBigEndian` | crypto/aad.go:130-143 | fills the whole buffer with the number, most significant byte first |
| `Aad.BuildChunkAAD` | crypto/aad.go:71-81 | the appends produce the chunk layout |
| `Aad.BuildFEKEnvelopeAAD` | crypto/aad.go:93-102 | the appends produce the FEK layout |
| `Aad.BuildMetadataFieldAAD` | crypto/aad.go:115-127 | the appends produce the metadata layout |
| `Aad.ChunkVector` | crypto/aad.go:71-81 | the bytes of one chunk context |
| `Aad.NegativeChunkVector` | crypto/aad.go:71-81 | the bytes of a chunk context with index -1 |
| `Aad.FekVector` | crypto/aad.go:93-102 | the bytes of one FEK context |
| `Aad.MetadataVector` | crypto/aad.go:115-127 | the bytes of one metadata context |
| `Aad.TakeFieldInverse` | crypto/aad.go:130-136 | a field below 2^32 bytes is recovered from the front of any text |
| `Aad.ChunkDecodes` | crypto/aad.go:71-81 | chunk contexts decode to themselves, for every int64 index, negative ones included |
| `Aad.FekDecodes` | crypto/aad.go:93-102 | FEK contexts decode to themselves |
| `Aad.MetadataDecodes` | crypto/aad.go:115-127 | metadata contexts decode to themselves unless name and owner have 8 bytes together |
| `Aad.AadUnambiguous` | crypto/aad.go:58-143 | two contexts of any shapes, with canonical labels, that have the same bytes are the same context |
| `Aad.MetadataInjective` | crypto/aad.go:115-127 | equal metadata layouts have equal fields, for any field name, below 2^32 bytes |
| `Aad.MetadataIsChunkIff` | crypto/aad.go:58-127 | below 2^32 bytes, a metadata layout is some chunk's if and only if field name and owner have eight bytes together |
| `Aad.MetadataIsNeverFek` | crypto/aad.go:93-127 | and it is never a FEK envelope's |
| `Aad.LongFieldsCollide` | crypto/aad.go:130-136 | at 2^32 bytes two metadata contexts share a layout |
| `Chunks.DownloadFileChunk` | handlers/downloads.go:57-92 | the owner handler's assignments compute the specified answer, every operation wrapping at int64 |
| `Chunks.BoundedChunk` | handlers/downloads.go:79-92 | the end and length of a chunk, cut off at the stream's end |
| `Chunks.DownloadShareChunk` | handlers/file_shares.go:827-867 | the share handler's likewise |
| `Chunks.ServedRange` | handlers/downloads.go:72-92 | below ceil(size/chunk), the range starts at index*chunk and ends at the lesser of the next chunk and the stream's end |
| `Chunks.ChunksTile` | handlers/downloads.go:72-92 | the served ranges in index order are exactly the first size bytes: no gap, overlap or padding |
| `Chunks.BothServeTheChunks` | handlers/file_shares.go:852-867 | for consistent metadata both handlers serve those ranges at exactly the indices below the count |
| `Chunks.HandlersAgreeIff` | handlers/file_shares.go:827-867 | for nonnegative chunk sizes the handlers agree if and only if there is a chunk count or no bytes |
| `Chunks.NegativeSizeAgreeIff` | handlers/file_shares.go:827-867 | for negative chunk sizes they agree if and only if there is nothing to serve or it fits into the share's first chunk |
| `Chunks.NegativeChunkSizeDiffers` | handlers/file_shares.go:827-867 | a concrete negative chunk size on which they differ |
| `Chunks.MissingColumns` | handlers/file_shares.go:832-838 | what stands in for missing chunk columns: the configured size, and one chunk for a share |
| `Chunks.ParseChunkIndex` | handlers/downloads.go:121-130 | accepts exactly digit strings (the empty one too), as their decimal value modulo 2^64 |
| `Chunks.WrittenIndexRead` | handlers/downloads.go:121-130 | a number written in decimal, with or without leading zeros, is read as itself |
| `Chunks.ParseExactIff` | handlers/downloads.go:121-130 | the parsed index is the written number if and only if it is below 2^63 |
| `Chunks.IndexAliases` | handlers/downloads.go:121-130 | an index plus any multiple of 2^64 parses as the index |

## Left out

- int64 wrap of balances and accumulators, and float64 rounding of scanned amounts beyond 2^53: amounts are integers.
- `SetCustomerPrice`, `ResolveRate`, price-string parsing, seeding and the cached rate: configuration reads; a resolved rate is a parameter.
- The display fields of `buildBillingProjection`, the stale-watermark warning of the meter, logging, security events and HTTP plumbing.
- BillingRuns.LedgerAppendOnly: a deleted user's ledger rows and accumulator go with the user (models/user.go:397-422, ON DELETE CASCADE); deleting a user is no op of the histories.
- SettlementPeriods.UsagePeriodsAbut: a watermark that a sweep writes is taken to read back as the same instant; the layouts it is written and parsed in are not modelled.
- JwtKeys.LoadJWTRing: a stored seed that does not decrypt, or has the wrong length, makes the load fail; here every stored seed can be read.
- Chunks.NegativeSizeAgreeIff: metadata whose chunk places overflow an int64, or with a negative stream size, where a chunk size is negative too.
- Row ids and row timestamps; parsing of database timestamps, which are absent, readable or garbled (`Ledger.Stamp`).
- A commit that reports failure although the database kept it: a refused commit is rolled back.
- MfaLockout.AtMost52InADay: attempts of one user are one after another; concurrent attempts that all check before any records are not modelled.
- Revocation.RevocationStore.IsRevoked: the per-token (JTI) revocation cache is modelled one call at a time; only the user-wide cache is interleaved.
- The several clock readings of one rate-limit check are one.
- RateLimit.PenaltyIsGeometric: multiplier arithmetic is over reals, without float rounding.
- Scheduler.Run: covers the loop; a disabled scheduler, the seeding of the price and the initial rate resolution come before it.
- Scheduler.SweepsIffFirst: one process; a restart of the scheduler forgets lastSweepDate.
- Scheduler.SleepUntil: on a clock that is not observed again the list of naps ends, where the source goes on waiting.
- AEAD, key derivation and Ed25519 are ideal functions; nonces are parameters.
- Key ids of signing keys are version numbers, not strings; the `LIKE` pattern that lists them is exact.
- EnvelopeProtocol.NeverLost: creating a first full-tier signing key in the middle of an envelope rotation is not modelled; a rotation is admitted only if there is one.
- Mandate signatures and fields, the service-running check, file modes and ownership of secrets.env, and directory creation.
- Object storage reads, and the share access counter.
- AAD strings are given as bytes; their UTF-8 encoding is not modelled.
- `crypto/user_secret_rotation.go`, MFA enrolment, OPAQUE and WebAuthn.
