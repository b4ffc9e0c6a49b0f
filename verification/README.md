# A verified model of the bridge

This project models the parts of the bank and investment bridge whose behaviour no single branch decides, and proves what they
keep over every run. It is plain Dafny 4.11; `dafny verify dfyconfig.toml` checks it.

* **One-time passwords** (`OtpLease`, `OtpBroker`, `OtpRuns`, `OtpDelivery`). The mutex-guarded lease monitor of the Google Messages
  receiver. `OtpLease` specifies each critical section, the classes of `OtpBroker` carry them out on fields, `OtpRuns` interleaves
  them with any number of waiters and message goroutines, health changes, crashes and restarts.
* **Bank ledger** (`LedgerRows`, `ArchiveInstallments`, `MemoryLedger`, `SqliteLedger`, `Ledger...`). Freezing, archive-installment
  aliasing and explicit coalescing, in the in-memory ledger and over SQLite tables with roll-back, and the proof that the two agree.
* **Investment runtime** (`RecoverySteps`, `ManualRecovery`, `RuntimeSteps`, `InvestmentRuntime`, `RuntimeRuns`, `RuntimeTheorems`,
  `ScheduledRecovery`, `RecoveryCollector`). Every stretch of code between two awaits is one step; any interleaving of steps, with
  restarts in between, is a run. The classes carry out the same steps on fields.
* **Investment store** (`InvestmentRecords`, `InvestmentStore`, `InvestmentHistory`, `InvestmentPointers`, `Limiter`, `RateLimiters`).
  Versioned records with their merge rules and revisions, archive seeding, and the two rolling-window limiters.
* **Texts and decimals** (`Digits`, `Money`, `Decimals`, `JsonScanner`, `JsonNumbers`, `JsonTexts`, `SourceDecimals`, `CanonicalDecimals`,
  `PercentSegments`, `TransactionIds`, `IdAssignment`, `DepositGroups`, `DepositReader`, `DepositTheorems`). JSON as in RFC 8259
  sections 2 to 7, percent-encoding as in RFC 3986 section 2.1, money in whole cents.
* **SimpleFIN windows** (`SimpleFinWindows`, `SimpleFinDelivery`, `SimpleFinLedger`). Date bounds and the first-seen rule, what a
  consumer that syncs again and again is delivered, and what runs of the ledger keep of the rows it is served.
* `Common`, `Sorting` and `Sums` hold shared definitions.

Code that changes state is modelled as methods on classes or loops over variables, each proved equal to a function on values; the
properties are then proved about those functions and their runs.

## Assumptions

* Clocks do not go back where a time bound is claimed (`Limiter.ClockJumpReplenishes` shows why), and timers do not fire early.
  Instants are integers (nanoseconds in the receiver, milliseconds elsewhere), compared as numbers where the source compares ISO
  texts of one format. Ledger amounts are whole cents.
* Hashes are 64 characters and injective, lease ids are fresh, a transaction id determines its company, and a batch given to the
  ledger has pairwise distinct ids, as `IdAssignment.Distinct` provides.
* Message templates, `localeCompare`, time-zone conversion and schema checks are parameters: any parser, any total order, any result.
  Dates are compared by their day number, which for four-digit years is the order of their texts.
* Promise reactions run in the order they were registered, so `runNow` and `maintainSession` finish before a `close` that waits for
  the same promise. The abort controller of a collection or renewal exists exactly as long as its slot is taken.

## Where the code differs from what it says

* `encodeSegment` is documented to encode everything outside letters, digits, `_`, `.` and `-`. It also leaves `!`, `~`, `*`, `'`, `(`
  and `)` as they are (`PercentSegments.ApostropheStays`; `DocumentedExactly` says when), and it throws on any surrogate code unit, even
  inside a valid pair (`PercentSegments.EncodableExactly`).
* An identifier that is a single dash is written like a missing one (`TransactionIds.BaseIdInjective`).
* Canceling a manual recovery that is already canceled aborts whatever collection runs now, even a scheduled one
  (`RuntimeTheorems.CancelAgainAbortsScheduledRun`); this is the only way a recovery aborts a collection not its own.
* The in-memory and the SQLite ledger may refuse a coalesce with different errors (`LedgerExamples.ErrorsMayDiffer`), exactly when the
  first failing pair names a stored canonical row of another company for an ambiguous duplicate (`LedgerAgreement.CoalescesAgree`).
* The SQLite ledger refuses a second synthetic payment for a transaction by its primary key, the in-memory ledger keeps it
  (`LedgerExamples.RepeatedPayment`). These two are the only answers that differ (`LedgerAgreement.RunsAgree`).
* A batch that was accepted may be refused as ambiguous when it is repeated (`LedgerExamples.RepeatedBatchRefused`), exactly when a row
  aliased the first time also matches another row the batch wrote (`LedgerReplays.TwiceIsOnce`).
* The number-preserving JSON scanner lets a bare number pass as an object key, which JSON does not (`JsonTexts.NumericKeysPass`), and
  nothing else that is not JSON (`JsonTexts.PassesExactly`).
* Merging report summaries sorts them, so re-applying a first snapshot with unsorted summaries makes one revision
  (`InvestmentHistory.ReapplyExactly`).
* A waiting client is woken by every change of its lease except plain expiry (`OtpRuns.NoLostWakeup`).

## Model

| member | source | states |
|---|---|---|
| OtpBroker.Broker.NewBroker | tools/google-messages-otp/broker.go:74-94 | a missing consumed file starts empty, a readable one within 2048 proper entries starts with them, anything else refuses |
| OtpBroker.Broker.SetHealth | tools/google-messages-otp/broker.go:97-112 | the whole new monitor state: a terminal broker ignores everything but stopping, going offline drops the lease, sleepers are woken |
| OtpBroker.Broker.EvictSeen | tools/google-messages-otp/broker.go:130-135 | the loop over the seen map leaves exactly the hashes noted at most ten minutes ago |
| OtpBroker.Broker.AlreadyConsumed | tools/google-messages-otp/broker.go:145-149 | the loop finds a hash exactly when some consumed entry has it |
| OtpBroker.Broker.Accept | tools/google-messages-otp/broker.go:115-162 | the whole critical section, in the source order of checks, equals the specified transition |
| OtpBroker.Broker.ArmSection | tools/google-messages-otp/broker.go:268-287 | the deciding section of arm: offline, active, generator failure or a fresh 180 second lease |
| OtpBroker.Broker.CancelSection | tools/google-messages-otp/broker.go:205-213 | DELETE removes the lease only when both provider and id match |
| OtpBroker.Broker.WaitSection | tools/google-messages-otp/broker.go:293-344 | one locked round: the answer, the pruned consumed list, the file, and giving up when the file cannot be written |
| OtpBroker.Broker.Wait | tools/google-messages-otp/broker.go:289-354 | the whole long poll over any script of wake-ups equals its specification |
| OtpRuns.HandedOutAtMostOnce | tools/google-messages-otp/broker.go:289-354 | over every interleaving with any number of waiters, message goroutines, crashes and restarts, two replies never carry codes of one lease, nor of one message hash within seven days |
| OtpRuns.DeliveriesAreDurable | tools/google-messages-otp/broker.go:311-336 | from the decision to deliver on, so before any reply, the hash is on file until it is seven days old |
| OtpRuns.BoundsHold | tools/google-messages-otp/broker.go:85-92 | in every reachable state the file stays readable, both candidate lists stay within 2048, a lease means online and not terminal, and none is both delivered and ambiguous |
| OtpRuns.DeliveredCodeHasOneSource | tools/google-messages-otp/main.go:263-305 | a delivered code comes from the only message that ever reached its lease, parsed by the lease provider’s rule, from one of its exact senders, dated between arming and one second after acceptance, although the lease may change between parsing and offering |
| OtpRuns.AmbiguityMeansTwoMessages | tools/google-messages-otp/broker.go:150-161 | a lease reached by two different messages never yields a code, and exactly such leases are ambiguous |
| OtpRuns.NoLostWakeup | tools/google-messages-otp/broker.go:343-352 | a sleeping waiter whose channel is still open would find its lease pending; only plain expiry is not announced |
| OtpRuns.TerminalForever | tools/google-messages-otp/broker.go:100-105 | a broker that gave up delivers nothing and never comes back online in that process |
| OtpDelivery.DeliveredExactly | tools/google-messages-otp/broker.go:289-354 | whatever health reports, messages, other waiters, arming and canceling go on after a message reached a lease, its waiter is answered with a code exactly when nothing disturbed the lease, it has not expired, there is room and the file is written; the answer is that message’s code, is on file and spends the lease |
| OtpDelivery.FirstMessageDelivered | tools/google-messages-otp/broker.go:115-162 | arm, any undisturbing operations, the first message reaching the lease, any operations, then wait: exactly that message’s code under the same condition |
| OtpDelivery.DisturbsExactly | tools/google-messages-otp/broker.go:97-162 | one operation leaves an open lease as it is exactly when it is none of the listed disturbances |
| OtpDelivery.LostForGood | tools/google-messages-otp/broker.go:293-342 | a lease that is gone, delivered or ambiguous never yields a code again over any further operations |
| OtpDelivery.SecondMessageWithdraws | tools/google-messages-otp/broker.go:154-159 | after a second, different message a wait says ambiguous, and none ever gets a code of that lease whatever happens |
| ArchiveInstallments.FindArchiveInstallment | src/ledger/archive-installments.ts:88-95 | the filter finds the unique match, nothing, or refuses; stated on the id-keyed rows |
| ArchiveInstallments.IndexFindsTheSame | src/ledger/archive-installments.ts:99-112 | searching only rows with the same account and identifier finds what searching all rows finds |
| ArchiveInstallments.ResolveArchiveInstallments | src/ledger/archive-installments.ts:98-127 | the two loops with their resolved and claimed maps compute the specified resolution or refuse |
| ArchiveInstallments.ValidateArchiveInstallmentPairs | src/ledger/archive-installments.ts:144-169 | count limit, distinct ids, both state hashes and the unique match are checked for every pair before any write |
| MemoryLedger.MemoryLedger.UpsertTransactions | src/ledger/memory.ts:64-110 | the loop over the batch leaves exactly the specified rows, counters and anomaly log, or an error and nothing changed |
| MemoryLedger.MemoryLedger.CoalesceArchiveInstallments | src/ledger/memory.ts:111-133 | dependents are refused, a dry run changes nothing, otherwise the specified rows |
| SqliteLedger.SqliteLedger.UpsertTransactions | src/ledger/sqlite.ts:448-481 | one transaction over the tables with aliases resolved on visaCal rows only; rolled back on an error |
| SqliteLedger.SqliteLedger.CoalesceArchiveInstallments | src/ledger/sqlite.ts:483-505 | one transaction: validation, dependency checks, refresh and delete of each pair |
| SqliteLedger.SqliteLedger.Refresh | src/ledger/sqlite.ts:428-446 | the UPDATE of the refreshable columns and whether anything visible changed |
| SqliteLedger.SqliteLedger.InsertSyntheticPayment | src/ledger/sqlite.ts:743-752 | appended unless the transaction id is there already; then refused |
| MemoryLedger.MemoryLedger.InsertSyntheticPayment | src/ledger/memory.ts:184-186 | appended always |
| LedgerBatches.AcceptedExactly | src/ledger/archive-installments.ts:98-127 | a batch is accepted exactly when every row resolves unambiguously and no two rows write the same stored row |
| LedgerBatches.BatchWrites | src/ledger/memory.ts:67-106 | an accepted batch writes each row’s target once and nothing else, inserting exactly the rows that stand for no stored row |
| LedgerBatches.OrderDoesNotMatter | src/ledger/memory.ts:64-110 | the same rows in any order are accepted or refused alike and leave the same ledger rows |
| LedgerReplays.TwiceIsOnce | src/ledger/memory.ts:64-110 | applying a batch twice leaves the rows of applying it once and inserts nothing; the second application is refused exactly when a row written to an archived installment the first time also matches another row the batch wrote |
| LedgerExamples.RepeatedBatchRefused | src/ledger/archive-installments.ts:88-95 | such a batch: a scraped row of a stored archived row together with a second archived row it also matches |
| LedgerReplays.RepeatedPortalBatchAccepted | src/ledger/archive-installments.ts:50-127 | a batch without archive evidence is accepted a second time, too |
| LedgerCoalescing.ValidateMeans | src/ledger/archive-installments.ts:144-169 | what validated pairs guarantee about the stored rows they name |
| LedgerReplays.CoalescedKeeps | src/ledger/sqlite.ts:428-446 | a canonical row keeps every frozen field, its status and its archive evidence |
| LedgerReplays.CoalesceExact | src/ledger/sqlite.ts:483-505 | exactly the duplicates disappear, only canonical rows change, and all other rows and records are untouched |
| LedgerReplays.DryRunPredicts | src/ledger/sqlite.ts:495-504 | a refused or dry run changes nothing and a dry run reports the counts of the real one |
| LedgerReplays.DuplicateFindsCanonical | src/ledger/archive-installments.ts:50-95 | a removed duplicate, scraped again with other times, category, memo or booking date, resolves to the row that took its place and to no other |
| LedgerReplays.ReplayInsertsNothing | src/ledger/archive-installments.ts:97-127 | a batch with re-scraped duplicates, alone or among other rows, is refused exactly when another row is ambiguous or writes what some row writes; when accepted no replayed row is inserted and the rows added are exactly the other rows that stand for no stored row |
| LedgerReplays.PureReplay | src/ledger/archive-installments.ts:97-127 | re-scraped duplicates only, in any order, are accepted, insert nothing and add no row |
| LedgerHistory.BatchEvolves | src/ledger/sqlite.ts:427-446 | one upsert only lets stored rows evolve: frozen fields stay, status moves only from pending to posted, known charge dates, categories and memos never disappear; postedSeenAt becomes a time exactly when a posted row of that time was written to that very row |
| LedgerHistory.FrozenOverRuns | src/ledger/sqlite.ts:448-481 | the same evolution over every run of upserts, accepted or refused |
| LedgerHistory.PostedOverRuns | src/ledger/sqlite.ts:427-446 | over any run a pending row is posted exactly when a posted row was written to it, and its postedSeenAt is the time of such a row |
| LedgerHistory.NewRowsAreFromBatch | src/ledger/memory.ts:69-73 | rows an upsert adds are rows of its batch |
| LedgerHistory.UpsertTotals | src/ledger/memory.ts:64-110 | an account’s total changes by exactly the rows inserted there |
| LedgerHistory.TotalsOverRuns | src/ledger/memory.ts:64-110 | over any run of upserts the total changes by exactly what the accepted ones inserted |
| LedgerHistory.CoalesceTotals | src/ledger/memory.ts:111-133 | a successful coalesce takes exactly the duplicates’ amounts out of an account’s total |
| LedgerAgreement.AliasedAnomalies | src/ledger/sqlite.ts:467-468 | a match forces equal amounts and descriptions, so an aliased row never raises an anomaly in either ledger |
| LedgerAgreement.UpsertsAgree | src/ledger/sqlite.ts:448-481 | a batch upsert fails in both ledgers or in neither, with the same error, rows, summary and anomaly log |
| LedgerAgreement.CoalescesAgree | src/ledger/sqlite.ts:483-505 | so does coalescing, with the same rows, log and counts; the errors differ exactly when the first failing pair names a stored canonical row of another company for a duplicate with several matches, both unchanged since review |
| LedgerExamples.ErrorsMayDiffer | src/ledger/memory.ts:111-118 | a table and a pair for which the two ledgers give different errors |
| LedgerAgreement.RunsAgree | src/ledger/sqlite.ts:448-505 | over every run of upserts, coalesces, recorded anomalies and payments the two ledgers hold the same rows and log, and the same payments but for repeated ones; their answers differ exactly at a payment for a transaction that has one and at a coalesce as above |
| LedgerExamples.RepeatedPayment | src/ledger/sqlite.ts:743-752 | two payments for one transaction: the in-memory ledger keeps both, the primary key refuses the second |
| ManualRecovery.ManualRecovery.CreateManualRecovery | src/investments/manual-recovery.ts:30-42 | refused exactly when the provider lease is held; otherwise the lease is taken and the challenge is open for 180 seconds |
| ManualRecovery.ManualRecovery.End | src/investments/manual-recovery.ts:54-62 | ending is absorbed by terminal states, clears timer, listener and pending promise, releases the lease and saves the outcome |
| ManualRecovery.ManualRecovery.Submit | src/investments/manual-recovery.ts:108-130 | the whole new state, the answer, the abort request and the lease |
| ManualRecovery.ManualRecovery.Cancel | src/investments/manual-recovery.ts:131-143 | the whole new state, the answer, the abort request and the lease |
| RecoverySteps.StepProgresses | src/investments/manual-recovery.ts:24-148 | every call keeps: deadline exactly while open, terminal states absorb, outcome saved exactly once, a code handed over at most once and only from awaiting_code, in time and with six digits |
| RecoverySteps.RunsProgress | src/investments/manual-recovery.ts:24-148 | the same over every sequence of calls, timers and aborts |
| RecoverySteps.EndsAs | src/investments/manual-recovery.ts:54-147 | each event ends an open recovery in its own state and error code, and a code on its way to the login is not overtaken by timer, abort or cleanup |
| InvestmentRuntime.InvestmentRuntime.RunNow | src/investments/runtime.ts:181-201 | starts a collection or refuses; a renewal in flight is waited for, the slot is taken at once |
| InvestmentRuntime.InvestmentRuntime.ResumeRun | src/investments/runtime.ts:199-204 | after waiting the collector is called only when not closed, not aborted and in the same generation |
| InvestmentRuntime.InvestmentRuntime.CollectionThrows | src/investments/runtime.ts:205-212 | an aborted collection records nothing; otherwise the failure is recorded, which may itself throw |
| InvestmentRuntime.InvestmentRuntime.EndRun | src/investments/runtime.ts:214-224 | the recovery is finished with the outcome before the slot is freed; a rejected run leaves that to its handler |
| InvestmentRuntime.InvestmentRuntime.MaintainSession | src/investments/runtime.ts:118-135 | refused while closed, collecting or maintaining |
| InvestmentRuntime.InvestmentRuntime.Stop | src/investments/runtime.ts:283-295 | generation, both aborts and the cancellation of the manual recovery, in order |
| InvestmentRuntime.InvestmentRuntime.Close | src/investments/runtime.ts:480-489 | closing stops everything and remembers what it waits for |
| InvestmentRuntime.InvestmentRuntime.StartRecovery | src/investments/runtime.ts:367-418 | all refusals in order; otherwise the tombstone, the lease and the collection |
| InvestmentRuntime.InvestmentRuntime.EndClose | src/investments/runtime.ts:487-488 | once what it waited for settled the store is closed, unless the run was rejected |
| InvestmentRuntime.InvestmentRuntime.TimerFires | src/investments/manual-recovery.ts:64-67 | the recovery expires, the lease is given back, and the collection is aborted |
| InvestmentRuntime.InvestmentRuntime.SubmitCode | src/investments/runtime.ts:420-436 | a code goes to the current recovery; others are answered from their tombstone |
| InvestmentRuntime.InvestmentRuntime.CancelRecovery | src/investments/runtime.ts:420-436 | the current recovery is canceled, a stored one answered from its tombstone |
| RuntimeRuns.NextKeeps | src/investments/runtime.ts:118-295 | every step between two awaits keeps the runtime invariant |
| RuntimeTheorems.OneAtATime | src/investments/runtime.ts:118-224 | over every interleaving and any number of crashes at most one collector call or renewal is in flight |
| RuntimeTheorems.ReservationBlocksRenewals | src/investments/runtime.ts:194-197 | while a collection has not finished, waiting ones included, no renewal begins |
| RuntimeTheorems.StopDropsReservation | src/investments/runtime.ts:199-201 | a collection still waiting when the runtime stops is never made |
| RuntimeTheorems.NothingAfterClose | src/investments/runtime.ts:480-489 | after close closed the store no collection, renewal or recovery step touches it |
| RuntimeTheorems.LeaseExactly | src/investments/manual-recovery.ts:16-21 | the provider lease is held exactly while one recovery is open; that recovery is unique and no foreign collection runs beside it |
| RuntimeTheorems.RequestsSpaced | src/investments/store.ts:266-287 | two collections for one request id, also in different processes, are more than 24 hours apart |
| RuntimeTheorems.OutcomeDurable | src/investments/runtime.ts:399-406 | the stored status of the latest recovery is its outcome, and “interrupted” while it has none |
| RuntimeTheorems.CollectionEndsRecovery | src/investments/runtime.ts:215-217 | when its collection ends an open recovery is complete exactly when data was collected, otherwise failed with the code of the outcome, and the store says the same |
| RuntimeTheorems.CrashLeavesInterrupted | src/investments/store.ts:277-280 | a process lost during a recovery leaves it interrupted for the whole retention unless the id is started anew |
| RuntimeTheorems.AbortsForeignExactly | src/investments/runtime.ts:397-398 | a timer or control request aborts a collection other than its own exactly when it cancels a recovery a second time |
| RuntimeTheorems.CancelAgainAbortsScheduledRun | src/investments/manual-recovery.ts:131-143 | a concrete run in which a repeated cancel aborts a scheduled collection |
| RecoveryCollector.RecoveryCollector.AutomaticLogin | src/investments/recovery.ts:30-53 | the SMS is reserved in the store before it is requested; a refused reservation fails the login |
| RecoveryCollector.RecoveryCollector.Collect | src/investments/recovery.ts:56-94 | the collector’s result and the reservation for every course of collection, login and second collection |
| RecoveryCollector.RecoveryCollector.RunScheduledCollection | src/investments/runtime.ts:226-281 | the retry loop makes exactly the specified attempts, at most 21 |
| ScheduledRecovery.ReservedIsNeverSkipped | src/investments/recovery.ts:76-91 | a call that reserved an SMS never asks to be repeated |
| ScheduledRecovery.OccurrenceHolds | src/investments/runtime.ts:249-270 | attempts of one occurrence are at least 30 seconds apart within its window, only skipped or overlapping ones are repeated, at most one SMS is reserved, in the last attempt, and the allowance is what other runs in between left, less that one |
| ScheduledRecovery.RepeatedOnlyWhenBusy | src/investments/runtime.ts:249-270 | an attempt is repeated only when other work was in the way, or the profile was busy and no SMS had been asked for |
| ScheduledRecovery.TimesIgnoreAllowance | src/investments/runtime.ts:226-281 | how many attempts an occurrence makes and when does not depend on the SMS allowance |
| ScheduledRecovery.AtMostTwentyOne | src/investments/runtime.ts:273-281 | one occurrence makes at most 21 attempts, however late timers fire |
| ScheduledRecovery.BusyReachesBound | src/investments/runtime.ts:260-269 | the bound is reached when every attempt meets other work |
| RateLimiters.RateLimiters.ConsumeAutomaticSmsAttempt | src/investments/store.ts:365-387 | grants and records exactly when fewer than two grants are inside the window |
| RateLimiters.RateLimiters.ConsumeControlRefreshAttempt | src/investments/store.ts:343-364 | as above, and the advertised seconds are the least whole number after which a request is granted |
| RateLimiters.RateLimiters.GetAutomaticSmsNextAllowedAt | src/investments/store.ts:336-342 | empty exactly when a request would be granted now, otherwise exactly the first time it will be |
| Limiter.WindowHoldsTwo | src/investments/store.ts:365-387 | with a clock that never goes back no three grants fall into one window |
| Limiter.DenialsReachBack | src/investments/store.ts:371-374 | a refusal at one time means a refusal at every earlier clock value |
| Limiter.NextAllowedIsLeast | src/investments/store.ts:336-342 | the predicted time is the least one at which the limiter allows |
| Limiter.RetryAfterIsLeast | src/investments/store.ts:351-351 | the number of seconds is the least whole one after which the limiter allows |
| Limiter.ClockJumpReplenishes | src/investments/store.ts:371-374 | why the clock must not go back: a jump forward and back lets a third request through at the old time |
| InvestmentStore.InvestmentStore.RecordFailure | src/investments/store.ts:170-186 | an older failure is ignored; otherwise the new source state |
| InvestmentStore.InvestmentStore.UpsertRecord | src/investments/store.ts:191-232 | merge, comparison of financial content, revision and saved row |
| InvestmentStore.InvestmentStore.AppendArchiveRecord | src/investments/store.ts:234-252 | an archived row is added once; a conflict is an error and nothing changes |
| InvestmentStore.InvestmentStore.ApplySnapshot | src/investments/store.ts:410-461 | all refusals in order, otherwise every row, the source state and the observation time |
| InvestmentStore.InvestmentStore.SeedArchive | src/investments/store.ts:292-335 | one transaction with its roll-back |
| InvestmentHistory.RevisionsAreHistory | src/investments/store.ts:191-232 | over every run, a record’s revisions followed by its current version are exactly the rows stored for it, keeping the last of consecutive rows with one financial content |
| InvestmentHistory.NeighboursDiffer | src/investments/store.ts:96-99 | neighbours of a history differ in financial content |
| InvestmentHistory.RunsGrow | src/investments/store.ts:410-461 | records are never deleted, revisions only added, the last success never moves back |
| InvestmentHistory.RefusalsKeepRecords | src/investments/store.ts:410-436 | incomplete, invalid, outdated or conflicting input leaves every record, revision and the last success as they were |
| InvestmentHistory.CountsAreExact | src/investments/store.ts:437-441 | every row is counted once, an insertion is a new record, an update a new revision |
| InvestmentHistory.ReportsMerge | src/investments/store.ts:213-219 | merging keeps every incoming report and every earlier one whose id does not come again, sorted |
| InvestmentHistory.ReapplyExactly | src/investments/store.ts:213-226 | storing a record’s current version again makes no revision exactly when its report summaries are sorted |
| InvestmentPointers.CurrentValueIsStored | src/investments/store.ts:34-94 | after any run a product’s current-value pointer names a stored, not archived, valuation of that product |
| InvestmentPointers.ValuationIdInjective | src/investments/ids.ts:21-28 | a valuation id reads back as its product |
| JsonScanner.Rewrite | src/investments/best-invest/parser.ts:98-128 | the loop over index, quoted and escaped computes the specified rewriting or refuses |
| JsonNumbers.NumberRunIsLexeme | src/investments/best-invest/parser.ts:118-118 | the number pattern takes exactly a number’s lexeme whatever legal text follows |
| JsonNumbers.RewritesEveryJson | src/investments/best-invest/parser.ts:94-134 | for every JSON text, and every text that is JSON but for bare number keys, the rewriting is the text of the same value with each number replaced by the string of its exact lexeme |
| JsonNumbers.NumbersAsTextValid | src/investments/best-invest/parser.ts:94-134 | the rewritten value is valid JSON, free of numbers and of bare keys |
| JsonTexts.PassesExactly | src/investments/best-invest/parser.ts:94-134 | the rewriting of a text is JSON exactly when the text is JSON but for bare number keys |
| JsonTexts.ReadBack | src/investments/best-invest/parser.ts:94-134 | a text whose rewriting is a JSON text is the text of a value from which that rewriting comes |
| JsonTexts.NumericKeysPass | src/investments/best-invest/parser.ts:117-124 | an object with a bare number key is no JSON text, and yet its rewriting is one |
| Money.ParseExact | src/investments/clal-portfolio.ts:46-56 | every accepted money text becomes canonical text of exactly the amount it denotes |
| Money.CanonicalFixed | src/investments/clal-portfolio.ts:46-56 | canonical texts are parsed to themselves |
| Money.CentsOfFormat | src/investments/clal-activities.ts:60-67 | reading the cents of a formatted amount gives the amount back |
| Money.FormatCentsOf | src/investments/clal-activities.ts:60-67 | formatting the cents of a canonical text gives the text back |
| Money.FormattersAgree | src/investments/best-invest/parser.ts:174-183 | the two formatters, one padding and cutting the digit string, agree on every amount |
| Money.ParseWithPlusExact | src/investments/best-invest/parser.ts:137-147 | the parser that also takes a plus sign accepts exactly its grammar and yields the formatted amount |
| SourceDecimals.ReadExactly | src/investments/hapoalim/parser.ts:34-38 | a text is accepted by the decimal grammar exactly when it is a number’s lexeme, and read as that number |
| CanonicalDecimals.ValuePreserved | src/investments/hapoalim/parser.ts:25-60 | an accepted text’s result denotes exactly the same number, exponents included, and is canonical |
| CanonicalDecimals.AcceptedExactly | src/investments/hapoalim/parser.ts:40-56 | exactly which texts are accepted: the exponent at most 30 either way and only zeros beyond twelve decimals and thirty whole digits |
| CanonicalDecimals.CanonicalFixed | src/investments/hapoalim/parser.ts:25-60 | canonical texts are kept as they are |
| CanonicalDecimals.Idempotent | src/investments/hapoalim/parser.ts:25-60 | applying it twice is applying it once |
| CanonicalDecimals.SameTextIffSameNumber | src/investments/hapoalim/parser.ts:25-60 | two accepted texts have the same result exactly when they denote the same number |
| CanonicalDecimals.MoneyExact | src/investments/hapoalim/parser.ts:62-74 | provider money becomes canonical money text of exactly the amount given |
| DepositReader.AddGroups | src/investments/clal-activities.ts:121-168 | the loop over components adds each amount to the group of its complete dimensions |
| DepositReader.ReadYear | src/investments/clal-activities.ts:189-223 | the row loop, its sums and subtotal, and the annual check |
| DepositReader.ReadHistory | src/investments/clal-activities.ts:228-296 | every year once, the undated empty footer skipped |
| DepositReader.ReadAll | src/investments/clal-activities.ts:299-319 | all histories into one group map, each known product once |
| DepositTheorems.ReadBlockExactly | src/investments/clal-activities.ts:170-175 | exactly which years are accepted, and that an accepted one adds exactly its deposits |
| DepositTheorems.GroupsAreSums | src/investments/clal-activities.ts:121-168 | each group holds exactly the sum of the deposit rows with its dimensions, and there is exactly one group for each key that has any; subtotals never enter |
| DepositTheorems.MoneyConserved | src/investments/clal-activities.ts:177-296 | for every product the groups add up to exactly the annual totals its provider stated |
| DepositTheorems.RowOrderIrrelevant | src/investments/clal-activities.ts:299-319 | reordering source rows within their years in any of the histories changes neither acceptance nor any published group |
| DepositTheorems.PublishedExact | src/investments/clal-activities.ts:321-322 | the published text of a group is canonical money of exactly its cents |
| PercentSegments.SegmentRoundTrip | src/ids.ts:28-30 | whatever can be encoded is decoded back, code unit for code unit |
| PercentSegments.EncodableExactly | src/ids.ts:28-30 | a segment can be encoded exactly when it has no surrogate, not even a paired one |
| PercentSegments.EncodedIsSegment | src/ids.ts:27-30 | an encoded segment is ASCII without separators: escapes, the documented characters, or one of six further marks |
| PercentSegments.DocumentedExactly | src/ids.ts:27-30 | an encoded segment stays within the documented characters exactly when the text has none of the six marks |
| PercentSegments.ApostropheStays | src/ids.ts:27-30 | an apostrophe is not encoded |
| TransactionIds.AccountRoundTrip | src/ids.ts:54-62 | the account number survives in its id, up to surrounding white space |
| TransactionIds.AccountIdRebuilt | src/ids.ts:54-62 | the id built again from the account number an id carries is the same id |
| TransactionIds.BaseIdExactly | src/ids.ts:39-52 | an id exists exactly when account number and identifier have no surrogate and their encoded lengths fit |
| TransactionIds.BaseIdInjective | src/ids.ts:95-105 | two ids without ordinal are equal exactly when company, trimmed account, identifier (a dash counting as none) and fingerprint are |
| TransactionIds.OrdinalInjective | src/ids.ts:95-105 | base id and ordinal can be read back from an id |
| TransactionIds.SyntheticNeverScraped | src/ids.ts:144-147 | a synthetic payment id is never a scraped row’s id |
| IdAssignment.AssignTransactionIds | src/ids.ts:130-142 | the loop over the sorted copy with its seen map gives each row, in input order, its base id and ordinal, or fails exactly when some id cannot be built |
| IdAssignment.Distinct | src/ids.ts:130-142 | ids of a batch are pairwise distinct |
| IdAssignment.IdsAre | src/ids.ts:130-142 | for every base id the ordinals used are exactly one to the number of its rows |
| IdAssignment.SucceedsExactly | src/ids.ts:130-142 | a batch gets its ids exactly when every row has a base id and every base id has room for all its ordinals |
| IdAssignment.OrderOfBatchIrrelevant | src/ids.ts:125-142 | any order of the batch gets ids or not alike, and the same multiset of ids |
| IdAssignment.RowKeepsId | src/ids.ts:109-142 | a row whose base’s rows differ in charge date keeps its id in every order of the batch |
| SimpleFinWindows.TransactionsFor | src/simplefin/payload.ts:237-256 | exactly the served rows, each as often as it is stored, by date and id |
| SimpleFinWindows.DatesMatchEpochs | src/simplefin/time.ts:4-8 | the date bounds select exactly the dates whose noon epoch lies in the half-open window |
| SimpleFinWindows.WindowDateIsLeast | src/simplefin/time.ts:26-32 | the bound is the first date whose noon is not before the epoch |
| SimpleFinWindows.PostedRoundTrip | src/simplefin/time.ts:15-32 | a bound that is itself a posted epoch is that date |
| SimpleFinDelivery.ServedWhenDue | src/simplefin/payload.ts:221-256 | a posted row is served by the first sync due for it if the first sync that could see it reached back to it |
| SimpleFinDelivery.DeliveredExactly | src/simplefin/payload.ts:221-256 | over a whole run of syncs: a posted row is delivered exactly when some sync is due for it and the first one that could see it reached back to it |
| SimpleFinDelivery.EverythingDelivered | src/simplefin/payload.ts:237-256 | if every window reaches back to all arrivals since the sync before, every row is served as soon as a window ends after its date, however late it arrived |
| SimpleFinDelivery.FutureRowsWait | src/simplefin/payload.ts:252-252 | a row dated at or after a window’s end stays out of it, however recently it was seen |
| SimpleFinLedger.ShownOverRuns | src/simplefin/transaction-date.ts:24-45 | over any run of upserts a posted row is shown to requests as it was, only seen later; its date is fixed unless it is a card row whose portal evidence changes |
| SimpleFinLedger.AllRecorded | src/ledger/sqlite.ts:448-481 | over any run of scrapes every first-seen and posted instant in the ledger lies in the past |
| SimpleFinLedger.StoredRowDelivered | src/simplefin/payload.ts:221-256 | a row the ledger holds as posted is served, from whatever later scrapes leave, by the first sync due for it if the first sync that could see it reached back to when it was seen |

## Left out

- Browser, profile locks, HTTP routing, sockets, cron, libgm, secret stores and file permissions are environment steps or inputs.
- `configureProvider` and the sender configuration: checks on one record; the installed rules are a parameter.
- `receiver.status` and alert handling: reduced to arbitrary health reports that are online only when ready.
- The availability probe of `arm`: its only effect, going offline, is a health step before the deciding section.
- Sender lookup keeps a slot until its goroutine ends; a slot is released with the candidate.
- SQL text, prepared statements and migrations: tables are maps with all-or-nothing transactions.
- A store write that fails while saving a recovery outcome: the tombstone then stays interrupted.
- `controlStatus` reads the store after an await and may do so after `close`; only collections, renewals and recoveries are covered by
  `NothingAfterClose`.
- `start` and the cron task: a start is a stop followed by steps that may happen anyway; scheduled attempts are modelled by
  themselves, their calls of `runNow` as ordinary ones.
- `setSessionState` and its newest-wins rule, the health report and the feed enrichment: single comparisons or copies.
- Identities of activities, tracks and executions in a snapshot: one flag, `othersValid`, since no property uses them.
- `JSON.parse` after the scanner, trimming of money texts before parsing, and string or number typing of provider fields.
- Calendar arithmetic between `YYYY-MM-DD` and day numbers, the kind and charge date shown beside a row's date, and payload formatting.
- Deposit rows' date parsing: a parsed or malformed month and date are inputs; the sorting of published activities by id is left out.
- Which synthetic payments are computed and how they are listed, claims and consumers, run records, holdings, duplicates listing and anomalies listing.
- The raw JSON of ledger rows: only the archive evidence and the portal fields that matching looks at.
- Binary floating point in ledger amounts: whole cents instead.
