# Verification of durable action execution

A Dafny 4.11 model of the parts of this repository whose guarantees no single function establishes, with
machine-checked proofs. `dafny verify dfyconfig.toml` checks the whole project.

The centre is the durable execution protocol of `crates/appcall-actions`. Requests from many workers share the
idempotency claims, completed records, reconciliation audits, usage reservations with their charge rows, window
counters, usage events and monthly rollups. Every transaction is one atomic step on all of these tables. A run is
any sequence of steps of any number of requests: transactions that commit, roll back or commit and lose their
reply, runner entries and returns, deadlines that drop the dispatch future while a transaction may still be in
flight, the read-timeout finalizer, lease takeovers, recovery sweeps and operator commands. A request that is never
stepped again has crashed. Every step has its own arbitrary clock.

Beside it stand the dispatch evidence, the circuit breaker, the canonical encoding behind the idempotency hash, the
exact comparison of integers and floats, the resumable event stream, the naming and reference resolution of the
connector generator, the token bucket, and the lead file.

## Layout

| files | content |
|---|---|
| `Schema`, `Ledgers`, `Transactions` | tables, elementary ledger changes, every transaction as a function on tables |
| `Store` | the same transactions as imperative methods on a class, each proved equal to its function |
| `Conservation`, `Bookkeeping`, `Accounting` | counters, usage and quota: ledger moves, and every transaction as legal moves |
| `Isolation`, `Service`, `Protocol`, `Preservation` | what a transaction spares, the driver, the invariant, its preservation by every step |
| `Guarantees`, `Fencing`, `Overcharge` | the theorems over whole runs, and the run that shows where usage fails |
| `Effects`, `Admissions`, `Reconciliations` | what every transaction visibly does: when it is granted and what it changes, in terms of rows, totals and maps |
| `Ceilings`, `Durability`, `Driving`, `HappyPath` | LinkedIn ceilings, lease protection and durable success over runs; where the driver takes a request, up to a whole success |
| `Evidence`, `Circuit` | the two smaller state machines |
| `Floats`, `Json`, `MixedCompare` | binary64 patterns, JSON values, exact comparison and equality |
| `JsonReader` | a reader of compact JSON written from RFC 8259, against which the canonical text is proved |
| `Texts`, `Decimals`, `CanonicalNumbers`, `CanonicalStrings`, `Canonical` | decimal text, canonical numbers, strings, values and hashes |
| `Streaming`, `Naming`, `References`, `Schemas`, `RateLimit`, `Csv` | one module per remaining component |

## Modelling decisions

- Identifiers that the code only compares are natural numbers. A reservation's id is its row position; its charge rows are
  held inside it. The send and LinkedIn counter tables are one map keyed by window.
- `Reservation.creator`, `Event.source`, `Request.log` and `State.writer` are history, not columns: no transaction
  reads them.
- `finish_read_timeout` is one step, and the row its ORDER BY picks among ties is an input of the step.
- A commit whose reply is lost and a transaction that rolls back are both visible to the request as a storage error.
- The float printer and SHA-256 are parameters: the printer is assumed to round-trip, the digest not to collide and to
  be written in hexadecimal (both as subset types with a witness, so neither assumption is empty). Lower-casing of header names is an input of the name allocation.
- Two promises do not hold of the code for every run. Usage is exact, and a hard limit is kept, at every moment of a
  run if and only if no step is an operator command that charges a claim whose reservation is missing or already
  settled (for the limit: in a month with nothing left). `Overcharge.ChargedTwice` is a concrete run of this kind:
  recovery charges under `quota_recovery:`, the operator under `usage_action_`, so neither sees the other's event.
- A request body may list as required a property that it does not declare; the generator then marks whatever input
  carries that name. `Naming.BuildOperation` states exactly when, `Naming.StrayDemandBindsParameter` shows it.

## Model

| member | source | states |
|---|---|---|
| `Guarantees.AtMostOnce` | crates/appcall-actions/src/service.rs:127-352 | In every run, one project and key have at most one mutating request that entered the runner without proof of non-dispatch, and it entered once |
| `Guarantees.ActorHoldsKey` | crates/appcall-actions/src/postgres_store.rs:235-331 | Such a request still holds its dispatched claim or wrote the completed record of its key |
| `Guarantees.CacheSound` | crates/appcall-actions/src/postgres_store.rs:112-160 | No key has both a claim and a record, and a cached output is the last runner answer of an earlier request with the same connection, action and hash |
| `Guarantees.HistoryIsPermanent` | crates/appcall-actions/src/postgres_store.rs:577-607 | Records never change and audits never go away, however a run continues |
| `Guarantees.TombstonePermanent` | crates/appcall-actions/src/claims.rs:272-390 | After a provider-outcome-known audit no acquire of that key is granted and no reconciliation of it succeeds, ever |
| `Guarantees.RefundSound` | crates/appcall-actions/src/service.rs:206-332 | A refunded charge belongs to a released reservation whose request proved non-dispatch in every runner attempt, or an operator proved it |
| `Guarantees.PhasesAreFinal` | crates/appcall-actions/src/postgres_store.rs:43-99 | Settled and released are final, refunds are never undone and rows keep their identity over any continuation |
| `Guarantees.CountersConserved` | crates/appcall-actions/src/postgres_store.rs:819-913 | In every run each counter equals its unrefunded charges, so refunding any reservation finds its rows and never clamps |
| `Guarantees.UsageOnce` | crates/appcall-actions/src/postgres_store.rs:577-607 | Without overcharging commands a reservation is settled exactly when one usage event was written for it, and rollups count their events |
| `Guarantees.UsageOnceIff` | crates/appcall-actions/src/claims.rs:325-371 | Usage is exact at every moment of a run if and only if no step is an overcharging operator command |
| `Guarantees.StepKeepsUsageIff` | crates/appcall-actions/src/claims.rs:325-371 | The same for one step from any state that satisfies the invariant |
| `Guarantees.HardQuota` | crates/appcall-actions/src/policy_postgres.rs:271-353 | Usage plus all pending and dispatched reservations of a project-month never exceeds a constant hard limit |
| `Guarantees.HardQuotaIff` | crates/appcall-actions/src/policy_postgres.rs:271-353 | Every moment of a run respects the limit if and only if no operator command charges a used-up month |
| `Guarantees.StepKeepsQuotaIff` | crates/appcall-actions/src/policy_postgres.rs:301-330 | The same for one step |
| `Guarantees.CapsHold` | crates/appcall-actions/src/policy_postgres.rs:423-445 | With constant caps no day's sends or spend ever pass them |
| `Fencing.FencedForEver` | crates/appcall-actions/src/postgres_store.rs:506-607 | Once a keyed request lost its claim it never owns it again, writes no record, is never metered and changes no claim |
| `Fencing.LostRequestInert` | crates/appcall-actions/src/postgres_store.rs:612-700 | Any transaction of a request without its claim leaves claims and records alone and writes no usage for it |
| `Effects.AcquireLaw` | crates/appcall-actions/src/postgres_store.rs:112-160 | Acquire is granted exactly when the project is enabled and the key has no record, no known outcome and no claim that still counts; the claim it writes, and what each refusal means |
| `Durability.LeaseProtects` | crates/appcall-actions/src/postgres_store.rs:148-149 | In every run, while its owner rests and its lease lasts, a claim stays as it is and nobody is granted its key |
| `Effects.BindLaw` | crates/appcall-actions/src/postgres_store.rs:186-234 | A reservation serves one request: binding is granted exactly to its own attempt and repeats freely |
| `Effects.MarkLaw` | crates/appcall-actions/src/postgres_store.rs:235-331 | The fence is passed exactly while reservation and claim are live, the connection unchanged and nothing dispatched; then both are marked for 24 hours |
| `Effects.ReleaseQuotaLaw` | crates/appcall-actions/src/postgres_store.rs:43-99 | An answered failure frees the reservation without refund and keeps a dispatched claim |
| `Effects.ReleaseNotDispatchedLaw` | crates/appcall-actions/src/postgres_store.rs:43-99 | A call never dispatched is refunded and its claim ends |
| `Effects.FinishNotDispatchedLaw` | crates/appcall-actions/src/postgres_store.rs:387-484 | When proof of non-dispatch is accepted, and that it refunds every window and ends the claim |
| `Effects.FinishLaw` | crates/appcall-actions/src/postgres_store.rs:506-607 | A successful finish settles the reservation with exactly one event, counts it in its month, records the output under the key and ends the claim; exactly when it is accepted |
| `Effects.FinishErrorLaw` | crates/appcall-actions/src/postgres_store.rs:506-607 | A failed finish changes nothing, and exactly when it is accepted |
| `Effects.FinishReadFailureLaw` | crates/appcall-actions/src/postgres_store.rs:612-710 | A failed read is charged if it was dispatched and its claim ends; exactly when it is accepted |
| `Effects.FinishReadTimeoutLaw` | crates/appcall-actions/src/postgres_store.rs:711-815 | A timed-out read is charged or refunded according to its evidence, and its claim ends |
| `Effects.TimeoutPickLaw` | crates/appcall-actions/src/postgres_store.rs:722-746 | The timeout looks at the newest active reservation of the attempt's identity that no other request bound |
| `Admissions.SweepLaw` | crates/appcall-actions/src/policy_postgres.rs:94-182 | The sweep at an instant releases with refund exactly the lapsed pending rows, settles exactly the lapsed dispatched ones, and leaves every other row as it was |
| `Admissions.CeilingLaw` | crates/appcall-actions/src/policy_postgres.rs:498-518 | A LinkedIn claim fails exactly at the first limit whose stored count has reached it, and leaves every claimed window within its limit |
| `Admissions.WindowsLaw` | crates/appcall-actions/src/policy_postgres.rs:498-518 | The same for any list of limits, counting what earlier limits claim in the same window, with the charges listed |
| `Admissions.ClaimLaw` | crates/appcall-actions/src/policy_postgres.rs:331-352 | Counters are claimed exactly when the route is open and a write has room under its caps; which charges follow, and which refusal |
| `Admissions.AdmissionLaw` | crates/appcall-actions/src/policy_postgres.rs:271-353 | Admission is granted exactly when, after the sweep, quota, route and caps allow it; a quota denial keeps the sweep, any other changes nothing |
| `Admissions.AdmittedLaw` | crates/appcall-actions/src/policy_postgres.rs:330-352 | A granted admission inserts one pending reservation with its charges, counts them, and touches nothing else but the pacing clock |
| `Ceilings.CeilingsHold` | crates/appcall-actions/src/policy_postgres.rs:498-518 | In every run no LinkedIn window counts more than the ceiling its limits stay under |
| `Reconciliations.LoadLaw` | crates/appcall-actions/src/claims.rs:443-503 | The reservation search accepts a key exactly when every active row, and at most one row, is the claim's own, and finds that one |
| `Reconciliations.ReconcileLaw` | crates/appcall-actions/src/claims.rs:272-390 | Exactly when a command is accepted; it is audited, only proof of non-dispatch ends the claim, and a refusal changes nothing |
| `Reconciliations.ReconcileRowLaw` | crates/appcall-actions/src/claims.rs:305-368 | The effect on the claim's own reservation by resolution and phase: refund, release, or one charge |
| `Reconciliations.ReconcileLooseLaw` | crates/appcall-actions/src/claims.rs:359-368 | Without an own reservation only a known success writes usage, once |
| `Durability.SuccessIsDurable` | crates/appcall-actions/src/postgres_store.rs:506-607 | After a successful finish the reservation stays settled, the record unchanged and the key unclaimed, however a run continues |
| `Driving.FinalizerFollowsEvidence` | crates/appcall-actions/src/service.rs:244-346 | Which attempts are retried, and which finalizer the worst evidence of all attempts calls for |
| `Driving.DeniedGivesClaimBack` | crates/appcall-actions/src/service.rs:193-205 | A request that the policy refuses gives its claim back and stops |
| `Driving.RefusedFenceCleansUp` | crates/appcall-actions/src/service.rs:206-243 | A refused binding or fence changes nothing and sends the request to its cleanup |
| `Driving.UndispatchedCleansUp` | crates/appcall-actions/src/service.rs:206-243 | That cleanup refunds an active reservation, gives the claim back and stops |
| `Driving.ProvenFailureRefunds` | crates/appcall-actions/src/service.rs:303-311 | Proof of non-dispatch refunds the dispatched reservation and ends the claim |
| `Driving.AnsweredFailureFrees` | crates/appcall-actions/src/service.rs:312-345 | An answered failure frees the reservation; a read ends its claim, a write keeps it as a fence |
| `Driving.DeadlineFinalizes` | crates/appcall-actions/src/postgres_store.rs:711-815 | A read past its deadline is charged exactly when some attempt under its dispatched claim did not prove non-dispatch |
| `Driving.RecordedSuccessIsReturned` | crates/appcall-actions/src/service.rs:127-134 | A recorded success of the same identity is returned without touching anything |
| `HappyPath.WelcomeRequestSucceeds` | crates/appcall-actions/src/service.rs:60-352 | From any reachable state an undisturbed request that nothing forbids runs once, is recorded, settled and charged once, and leaves no claim |
| `Overcharge.ChargedTwice` | crates/appcall-actions/src/policy_postgres.rs:121-182 | A reachable state in which one reservation has two usage events and a hard limit of one is passed |
| `Preservation.StepKeepsInv` | crates/appcall-actions/src/service.rs:60-352 | Every possible step of the driver, the finalizer or an operator keeps the protocol invariant |
| `Preservation.ReachableInv` | crates/appcall-actions/src/service.rs:60-352 | So it holds after every run from empty tables |
| `Isolation.ExecSpares` | crates/appcall-actions/src/postgres_store.rs:104-815 | A transaction changes no other request's dispatched claim, no record and no audit, and another's reservation only by expiry or recovery |
| `Accounting.QuotaMonthsExact` | crates/appcall-actions/src/policy_postgres.rs:73-92 | The months locked are in strict order and are exactly the current one and those with lapsed reservations |
| `Accounting.AdmissionSweep` | crates/appcall-actions/src/policy_postgres.rs:94-182 | The sweep only releases lapsed pending and settles lapsed dispatched reservations, and after it no reservation of the project is lapsed in any month |
| `Accounting.ReserveMoves` | crates/appcall-actions/src/policy_postgres.rs:271-353 | Admission is that sweep followed by one insertion within the limit, or leaves the ledger or the swept ledger |
| `Accounting.ReconcileMoves` | crates/appcall-actions/src/claims.rs:272-390 | An operator command is at most one legal ledger move, and which one |
| `Accounting.ExecKeepsBooks` | crates/appcall-actions/src/postgres_store.rs:104-815 | Every transaction keeps counters conserved and reservation rows consistent |
| `Accounting.ExecKeepsUsageIff` | crates/appcall-actions/src/claims.rs:688-727 | A transaction keeps usage exact if and only if it is not an overcharging operator command |
| `Accounting.ExecKeepsQuotaIff` | crates/appcall-actions/src/policy_postgres.rs:301-330 | A transaction keeps the hard limit if and only if it is not such a command on a used-up month |
| `Accounting.OverchargeCommits` | crates/appcall-actions/src/claims.rs:696-727 | Such a command commits exactly one more call, in the month it charges |
| `Accounting.ExecKeepsCaps` | crates/appcall-actions/src/policy_postgres.rs:423-445 | No transaction lets a send or spend counter pass its cap |
| `Accounting.LiveIsActive` | crates/appcall-actions/src/policy_postgres.rs:183-226 | Right after the sweep the unexpired reservations that the snapshot counts are all the active ones |
| `Conservation.RefundLoopExact` | crates/appcall-actions/src/postgres_store.rs:819-913 | The refund loop takes from each counter exactly what its unrefunded charges owe, without clamping or missing rows |
| `Conservation.RefundConserves` | crates/appcall-actions/src/claims.rs:629-686 | Refunding and releasing succeeds on a conserved ledger and keeps it conserved |
| `Conservation.ClaimWindowsExact` | crates/appcall-actions/src/policy_postgres.rs:464-521 | Claiming LinkedIn windows adds to each counter exactly the charges it lists |
| `Conservation.ClaimCountersExact` | crates/appcall-actions/src/policy_postgres.rs:331-352 | An admission adds to each counter exactly the charge rows it inserts, none refunded |
| `Bookkeeping.PlayKeepsUsage` | crates/appcall-actions/src/postgres_store.rs:926-937 | Settling writes exactly one event and one rollup unit; no other fair move changes usage |
| `Store.Transaction.RefundAndReleaseRow` | crates/appcall-actions/src/postgres_store.rs:819-913 | The refund loop over charge rows equals the refund function, and fails exactly when it does |
| `Store.Transaction.InsertEvent` | crates/appcall-actions/src/postgres_store.rs:926-937 | Inserting a usage event with its rollup search equals the specification |
| `Store.Transaction.ExpireMonth` | crates/appcall-actions/src/policy_postgres.rs:94-116 | The expiry loop releases and refunds exactly the lapsed pending reservations of the month |
| `Store.Transaction.RecoverMonth` | crates/appcall-actions/src/policy_postgres.rs:121-182 | The recovery loop charges and settles exactly the lapsed dispatched reservations of the month |
| `Store.Transaction.ClaimLinkedIn` | crates/appcall-actions/src/policy_postgres.rs:464-521 | The loop over windows claims and lists what the specification does, or stops at the same window |
| `Store.PgStore.Acquire` | crates/appcall-actions/src/postgres_store.rs:112-160 | New tables and reply of acquire: cached, tombstoned, conflicting, in progress, taken over or granted |
| `Store.PgStore.Bind` | crates/appcall-actions/src/postgres_store.rs:186-234 | New tables and reply of binding a reservation to its request |
| `Store.PgStore.MarkDispatched` | crates/appcall-actions/src/postgres_store.rs:235-331 | New tables and reply of the dispatch fence |
| `Store.PgStore.ReleasePending` | crates/appcall-actions/src/postgres_store.rs:341-344 | Deletes the caller's own undispatched claim and nothing else |
| `Store.PgStore.ReleaseReservation` | crates/appcall-actions/src/postgres_store.rs:43-99 | New tables and reply of every release variant, refunded or not |
| `Store.PgStore.FinishNotDispatched` | crates/appcall-actions/src/postgres_store.rs:387-484 | New tables and reply of the non-dispatch finalizer |
| `Store.PgStore.Finish` | crates/appcall-actions/src/postgres_store.rs:506-607 | New tables and reply of finishing with or without an output |
| `Store.PgStore.FinishReadFailure` | crates/appcall-actions/src/postgres_store.rs:612-710 | New tables and reply of finishing a failed read |
| `Store.PgStore.FinishReadTimeout` | crates/appcall-actions/src/postgres_store.rs:711-815 | New tables and reply of the read-timeout finalizer |
| `Store.PgStore.Reserve` | crates/appcall-actions/src/policy_postgres.rs:271-353 | New tables and reply of admission, with a durable sweep even when the limit denies it |
| `Store.PgStore.Reconcile` | crates/appcall-actions/src/claims.rs:272-390 | New tables and reply of an operator command, with its audit |
| `Store.TerminalAudits` | crates/appcall-actions/src/postgres_store.rs:125-147 | Whether a key is tombstoned, and whether every tombstone repeats the caller's identity |
| `Store.MonthsToLock` | crates/appcall-actions/src/policy_postgres.rs:73-92 | The loop over reservations collects exactly the specified months |
| `Evidence.WorstIsMaximum` | crates/appcall-actions/src/evidence.rs:104-111 | The folded outcome is the worst one seen, an attempt in flight counting as unknown |
| `Evidence.NotDispatchedIff` | crates/appcall-actions/src/evidence.rs:29-55 | Non-dispatch is reported exactly when every attempt begun finished and proved it |
| `Evidence.DispatchEvidence.BeginAttempt` | crates/appcall-actions/src/evidence.rs:29-38 | Logs an attempt in flight and returns the evidence before it |
| `Evidence.DispatchEvidence.FinishAttempt` | crates/appcall-actions/src/evidence.rs:39-48 | Replaces the attempt in flight by its outcome, keeping the evidence equal to the fold of the log |
| `Evidence.DispatchEvidence.ResolveDeadline` | crates/appcall-actions/src/evidence.rs:80-97 | A deadline counts against the circuit exactly when some attempt was begun and did not prove non-dispatch |
| `Circuits.GenerationIsIssueOrder` | crates/appcall-actions/src/circuit.rs:63-97 | In every run a live admission's generation is current exactly when no decisive outcome of its key came after it was issued |
| `Circuits.ProbeExclusive` | crates/appcall-actions/src/circuit.rs:33-97 | In every run the probe flag is set exactly while one live unresolved probe that still counts exists |
| `Circuits.OpenIffStreak` | crates/appcall-actions/src/circuit.rs:63-84 | A circuit is open exactly when its failures reach the threshold, that is when the last outcomes that counted all failed; it cools down from the latest |
| `Circuits.RefusesOnlyForCause` | crates/appcall-actions/src/circuit.rs:33-53 | Admission is refused exactly while cooling down or while the current probe lives, so cancellation leaks nothing |
| `Circuits.StaleIsInert` | crates/appcall-actions/src/circuit.rs:63-97 | Once an admission succeeds while it counts, or its failure opens the circuit, every other admission of the key issued before changes nothing, whenever it is resolved or dropped |
| `Circuits.StaleForEver` | crates/appcall-actions/src/circuit.rs:63-84 | An outcome that does not count now never will |
| `Circuits.LateFailuresDoNotOpen` | crates/appcall-actions/src/circuit.rs:63-84 | Of three overlapping calls, the failures of two after the success of one leave the circuit closed |
| `Circuits.Circuit.Admit` | crates/appcall-actions/src/circuit.rs:33-53 | New state and admission, or refusal |
| `Circuits.Circuit.Resolve` | crates/appcall-actions/src/circuit.rs:63-84 | New state after an outcome; nothing for a stale admission |
| `Circuits.Circuit.Drop` | crates/appcall-actions/src/circuit.rs:85-97 | Dropping an unresolved current probe frees its slot, any other drop changes nothing |
| `MixedCompare.UnsignedIsExact` | crates/appcall-cli/src/qa_value.rs:182-211 | Comparing bit lengths and then one lossless shift gives the mathematical order |
| `MixedCompare.ShiftIsExact` | crates/appcall-cli/src/qa_value.rs:199-211 | Whenever the code shifts, the shift is below 128 and loses no bit |
| `MixedCompare.MixedIsExact` | crates/appcall-cli/src/qa_value.rs:158-180 | An integer and any finite float, zero and subnormals included, compare in their mathematical order |
| `MixedCompare.CompareIsTrueOrder` | crates/appcall-cli/src/qa_value.rs:144-153 | Any two JSON numbers compare in the order of the numbers they stand for; nothing else compares |
| `MixedCompare.SameIffMeans` | crates/appcall-cli/src/qa_value.rs:109-120 | Equality of nested JSON holds exactly when both mean the same value with numbers read as reals |
| `MixedCompare.SameIsEquivalence` | crates/appcall-cli/src/qa_value.rs:109-120 | So it is reflexive, symmetric and transitive |
| `CanonicalNumbers.Normalise` | crates/appcall-actions/src/canonical.rs:70-88 | The digit buffer after draining and popping zeros, with its decimal point |
| `CanonicalNumbers.Number` | crates/appcall-actions/src/canonical.rs:63-118 | The text pushed out piece by piece in fixed or exponent form |
| `CanonicalNumbers.NumberKeepsValue` | crates/appcall-actions/src/canonical.rs:63-118 | Read as a decimal, the text has exactly the sign and value that were printed |
| `CanonicalNumbers.NumberIsCanonical` | crates/appcall-actions/src/canonical.rs:63-118 | Within one form two printed numerals give the same text exactly when sign and value agree |
| `CanonicalNumbers.NumberIsWellFormed` | crates/appcall-actions/src/canonical.rs:63-118 | The text is a JSON number of the one canonical shape: no trailing zeros, a signed exponent without leading zeros after one nonzero digit |
| `Canonical.FixedFromIsNearest` | crates/appcall-actions/src/canonical.rs:93-93 | No binary64 is nearer to one millionth than the lower bound of the fixed form |
| `Canonical.FixedRangeIs` | crates/appcall-actions/src/canonical.rs:93-93 | The fixed form is chosen exactly for numbers from the float at 1e-6 up to, not including, 1e21 |
| `CanonicalStrings.StringTextIs` | crates/appcall-actions/src/canonical.rs:17-25 | The serializer followed by five replacement passes escapes character by character |
| `CanonicalStrings.StringReads` | crates/appcall-actions/src/canonical.rs:17-25 | A JSON reader reads a string's text back as exactly that string, whatever follows |
| `CanonicalStrings.EscapeForm` | crates/appcall-actions/src/canonical.rs:17-25 | Each character takes its shortest form, hexadecimal escapes are lower case, and nothing unsafe to embed is left bare |
| `CanonicalStrings.StringIsEmbeddable` | crates/appcall-actions/src/canonical.rs:17-25 | No control character and none of the five rewritten ones stands in a string's text |
| `CanonicalStrings.StringReadable` | crates/appcall-actions/src/canonical.rs:17-25 | A string's text determines the string and where it ends |
| `Canonical.F64IsExact` | crates/appcall-actions/src/canonical.rs:31-43 | No accepted number is rounded on its way to the text |
| `Canonical.TextReads` | crates/appcall-actions/src/canonical.rs:26-62 | A JSON reader reads a value's text back as that value: words, strings, numbers by sign and decimal value, lists in order, members in key order |
| `Canonical.RefusedIffUnsafe` | crates/appcall-actions/src/canonical.rs:31-43 | A value is refused exactly when some integer in it is beyond two to the 53 |
| `Canonical.TextReadable` | crates/appcall-actions/src/canonical.rs:26-62 | A value's text determines the value and where it ends, whatever may follow it |
| `Canonical.CanonicalIffSame` | crates/appcall-actions/src/canonical.rs:26-62 | Accepted values have equal texts exactly when they are the same JSON up to key order and float value, zeros told apart |
| `Canonical.ScopedHashForm` | crates/appcall-actions/src/canonical.rs:8-16 | Which digest is taken of which text, with and without a scope |
| `Canonical.ScopedHashIdentifies` | crates/appcall-actions/src/canonical.rs:8-16 | Scoped hashes are equal exactly when input and account scope are |
| `Streaming.EncodePage` | crates/appcall-api/src/streaming.rs:530-583 | The page is the longest sound prefix within 4 MiB and says when it left something; it fails exactly on a long answer or a faulty event it had room for |
| `Streaming.PageIsOrdered` | crates/appcall-api/src/streaming.rs:538-582 | Positions on a page are positive and grow, no cursor repeats its predecessor, no frame exceeds 4 MiB |
| `Streaming.NextPage` | crates/appcall-api/src/streaming.rs:650-664 | A page holds the events right after the cursor and is empty only when none is visible; failure means one ahead cannot be delivered |
| `Streaming.SendFrames` | crates/appcall-api/src/streaming.rs:637-642 | The cursor moves past exactly the frames sent |
| `Streaming.TakeTurn` | crates/appcall-api/src/streaming.rs:636-666 | One turn keeps the stream contiguous; exactly when it closes or breaks, and which page is pending when it goes on |
| `Streaming.Deliver` | crates/appcall-api/src/streaming.rs:619-666 | What was sent is a contiguous stretch of the log and the cursor resumes after it; errors only for cause; an idle stream has caught up; every healthy turn advances |
| `Naming.FreshName` | scripts/connector-gen/openapi.ts:356-365 | The suffix search ends within one try more than names taken, at the first candidate not taken, which is the stem itself where that is free |
| `Naming.UniqueKey` | scripts/connector-gen/openapi.ts:409-423 | An operation key not taken before, the wanted one where it is free |
| `Naming.OperationKeys` | scripts/connector-gen/openapi.ts:65-92 | The keys of a manifest are pairwise distinct and hold every wanted key |
| `Naming.Dedupe` | scripts/connector-gen/openapi.ts:129-139 | One parameter per name and location, each the last declaration of it |
| `Naming.GeneratedParameterNames` | scripts/connector-gen/openapi.ts:265-297 | Emitted parameters get pairwise distinct names, none a body property's, kept where nothing else wants them, else numbered with the suffix of their location |
| `Naming.EmitParameters` | scripts/connector-gen/openapi.ts:146-190 | Query, header, path-alias and metadata tables refer to exactly each parameter's own input |
| `Naming.BuildBody` | scripts/connector-gen/openapi.ts:324-354 | Each body property gets its own input beside the parameters', and its one reference; it keeps its own name exactly where that is free, else takes the suffix Body |
| `Naming.BuildOperation` | scripts/connector-gen/openapi.ts:120-199 | All of this for one operation, and exactly which inputs are required |
| `Naming.StrayDemandBindsParameter` | scripts/connector-gen/openapi.ts:346-352 | A body demanding an undeclared property makes an optional query parameter required |
| `References.DerefPointer` | scripts/connector-gen/openapi.ts:526-538 | The segment loop walks the document key by key from the unescaped segments |
| `References.PointerRoundTrip` | scripts/connector-gen/openapi.ts:526-538 | Every place in a document is found by its escaped pointer, whatever its keys hold |
| `References.PlacedIsFound` | scripts/connector-gen/openapi.ts:526-538 | A value placed in a document is what the pointer to its place yields |
| `References.WalkOn` | scripts/connector-gen/openapi.ts:531-537 | One key further leads to that field of a record, and nowhere from anything else |
| `References.UnescapeEscape` | scripts/connector-gen/openapi.ts:535-535 | The two replacements in this order undo escaping |
| `References.ResolveRef` | scripts/connector-gen/openapi.ts:513-524 | Ends on every document; yields the end of the reference chain, or nothing when it is circular; never a reference |
| `Schemas.Resolve` | scripts/connector-gen/openapi.ts:482-511 | Ends on every document by references not yet seen and schema size; the visited set grows; the result is no reference |
| `Schemas.ResolveSchema` | scripts/connector-gen/openapi.ts:482-511 | The recursion with a loop over parts computes that resolution |
| `Schemas.ResolvedNamesAreReachable` | scripts/connector-gen/openapi.ts:482-511 | The resolved property names are exactly those of the schemas reachable through references and allOf |
| `Schemas.VisitedIsReach` | scripts/connector-gen/openapi.ts:482-511 | The visited set ends as the least closed set of references |
| `Schemas.MergeLaw` | scripts/connector-gen/openapi.ts:492-509 | A merged schema has the properties of its parts, the last part deciding each value, and their requirements in order |
| `Schemas.ResolveLaw` | scripts/connector-gen/openapi.ts:482-491 | Anything but a reference or a merge is kept, a new reference followed, a seen one flattened |
| `RateLimit.PeerLimiter.Allow` | crates/appcall-api/src/rate_limit.rs:98-119 | One call changes its own bucket only, as refill and take say |
| `RateLimit.AvailableIsLeastRoom` | crates/appcall-api/src/rate_limit.rs:98-119 | The tokens are the least room that any window ending now leaves |
| `RateLimit.AdmitsExactly` | crates/appcall-api/src/rate_limit.rs:98-119 | A call is admitted exactly when it keeps every window ending with it within burst plus rate |
| `RateLimit.RateBound` | crates/appcall-api/src/rate_limit.rs:98-119 | Any window admits at most burst plus rate times clock advance, in whatever order timestamps come |
| `Csv.SplitCsvLine` | runner/sena-e2e/state.ts:37-52 | The character loop computes the cells of the line |
| `Csv.RowRead` | runner/sena-e2e/state.ts:29-53 | Reading a row of escaped cells gives the cells with line breaks flattened |
| `Csv.RoundTrip` | runner/sena-e2e/state.ts:29-69 | Parsing a serialized lead list gives it back with only runs of CR and LF flattened to one space |
| `Csv.QuoteInCell` | runner/sena-e2e/state.ts:40-50 | A quote opens quoting wherever it stands in a cell |
| `Csv.UnclosedQuote` | runner/sena-e2e/state.ts:40-51 | A quote left open takes the rest of the line |
| `Csv.BlankLineIgnored` | runner/sena-e2e/state.ts:60-62 | A blank line counts for nothing, wherever it stands |
| `Csv.CellsFollowHeader` | runner/sena-e2e/state.ts:24-27 | Each cell of a row stands under the column that names its field |
| `Csv.FlatRun` | runner/sena-e2e/state.ts:29-30 | A run of line breaks becomes exactly one space |
| `Csv.SecondTripIsExact` | runner/sena-e2e/state.ts:29-69 | A second trip through the file changes nothing |

## Left out

- Global deadlock freedom: transactions are atomic steps, lock order is not modelled.
- Reservation-less calls (empty `quota_id`), rows and events of older writers, and replay logging.
- `PgPolicy::observe_failure`, which the service does not call, and provider-specific LinkedIn error detail; the routing decision and the pacing plan are inputs of admission.
- Overflow of 64-bit counters and rollups other than the checked additions of the usage snapshot.
- A request that enters the runner after an operator proved it never did: an operator's proof is taken as true.
- Circuits.Circuit.Resolve: the generation is unbounded, so its wrap-around after 2^64 outcomes is not modelled; a poisoned lock is not either.
- CanonicalNumbers.Number: digit counts and exponents are unbounded integers, so i32 overflow in the decimal point is not modelled; floats that Rust prints never come near it.
- CanonicalStrings.StringReads: the reader does not combine surrogate escapes, which the canonical text never holds.
- Canonical.TextReads: the reader takes compact text only; white space between tokens is not read.
- Streaming.Deliver: timing, heartbeats and chunking of one frame are not modelled; a frame is sent or it is not. The poll is assumed to return the next visible events in order. Base64 of the cursor is not modelled.
- Naming.BuildOperation: names that JavaScript objects treat specially, such as `__proto__`, are ordinary names here; slugs of paths are inputs.
- References.DerefPointer: inherited JavaScript properties are not reachable here, only a record's own.
- Termination of `describeSchema`, which restarts with an empty visited set and does not end on self-referencing arrays.
- RateLimit.PeerLimiter.Allow: reals stand for floats, so rounding is not modelled; the hash of a peer is an input.
- Csv.RoundTrip: the file system side of the store is not modelled.
- HTTP routing, authentication, OAuth, browser hosting, database generation rotation, manifests' field validation, history redaction, and the release and benchmark scripts: drivers and single-branch checks.
