# Billing service: verified models

Dafny models of the parts of the billing service in which a mistake costs money or loses an
event, with proofs of what they promise. `dafny verify dfyconfig.toml` checks everything.

What is modelled, file by file:

* **Credit ledger.** `LedgerModel` gives every operation as one step on five tables (accounts,
  grants, holds, allocations, journal); `LedgerInvariant` says what a sound ledger is; the
  `Ledger...Proof` files prove that each operation keeps it, and `LedgerRuns` what follows for
  every run. `CreditRepository` is the repository itself, a class whose methods update the rows
  one by one and are proved to take those steps. `LedgerBurnOrder` says in the columns of the
  grants in which order credit is reserved and charged, and `LedgerReconciliation` what its
  integrity checks find on any ledger, sound or not. `LedgerPaging` and `LedgerHistory` are the
  reader, also while the ledger is being written, and `LedgerReader` one call of it on any
  journal. `AllocateGrants` is the simple greedy form that the reserve loop refines.
* **Exact pricing.** `Rationals` (bounded arithmetic in lowest terms), `MeteringPricing` (the
  pricing function and its imperative form), `PricingForest` (the inclusion graph), `PricingProof`
  and `PricingOrder` (the price over the reals, and independence of order), `PricingTexts`
  (accepted identifiers, codes and fractions by letters and digits).
* **Strict JSON and usage evidence.** `AgentJson` (parser and canonical printer),
  `AgentJsonGrammar` (the accepted language as syntax trees), `AgentJsonCanonical` (round trips),
  `AgentJsonReader` (the parser with its moving offset), `AgentJsonText` (escapes and canonical
  form by code unit numbers), `EvidenceJson` and `EvidenceNames` (reports as records and the JSON
  their digests cover), `UsageEvidence` (succession of evidence reports). Strings follow section 7
  of RFC 8259, the canonical form sections 3.2.2.2 and 3.2.3 of RFC 8785.
* **Identity header.** `Unicode` (UTF-16 and, after section 3 of RFC 3629, UTF-8) and
  `IdentityHeader` (unpadded base64url, sections 5 and 3.5 of RFC 4648).
* **Outbox.** `Outbox` (what each call does to a row), `OutboxRows` (the life of one row),
  `OutboxRuns` (all interleavings and clock readings), `OutboxColumns` (each call in the columns
  of its rows), `OutboxRepository` (the class).
* **Command receipts.** `CommandReceipts`, `CommandReceiptRuns`, `CommandReceiptColumns` (when a
  command is refused) and the class `CommandReceiptRepository`.
* **Nested sessions.** `NestedSession`: a transaction with savepoints over a connection whose
  control statements may fail before or after the server ran them and whose queries may fail.
  The server is PostgreSQL's: a failed query aborts the transaction until it is rolled back, to
  a savepoint or in full, and the COMMIT of an aborted transaction keeps nothing.
* **Rate revisions.** `RateRevision` (validation, canonical text), `RateRevisionProof` (codec
  round trips), `RateSets` (the validating pass), `RateSelection` (which rate a request gets),
  `RateStore`, `RateRevisionRepository` and `RateRevisionRuns` (tables, publication, read-back),
  `RateIntegrity` (what reading back tells about the tables), `RateTexts` (accepted texts by
  letters and numbers).

`Sums`, `Positions`, `Sorting`, `BurnOrder`, `Alphabets`, `Decimals`, `Digests` and `Outcomes` are shared.

Conventions. A table is a sequence of rows; a row's position stands for its primary key, and the
random uuid is a column where an ORDER BY reads it. A call is one atomic step with its clock
readings and fresh uuids as parameters, because the row and advisory locks order the calls; a
call that throws changes nothing. Texts of the codecs are sequences of UTF-16 code units.
Every lemma carries `{:induction false}`, so each induction is written out in its proof.

Five promises of the code do not hold everywhere. For each, a concrete input shows it and the exact
condition is proved:

* `grant` reads the clock twice. If the effective time falls between the two readings the grant
  is stored as pending, credited, and credited again when its window opens
  (`LedgerGrantProof.RacingGrantCountsTwice`, `LedgerGrantProof.GrantKeeps`).
* Releasing a hold on an expired grant returns its amount to the available balance although no
  reserve can spend it (`LedgerRuns.ReleasedAfterExpiryIsStranded`). The available balance is
  spendable if and only if every grant with an unreserved remainder is eligible
  (`LedgerReserveProof.AvailableIsSpendable`, `LedgerReserveProof.SpendableAfterRefresh`).
* `grant` accepts an empty source kind or reference, and the reader of the journal then refuses the
  whole account (`LedgerHistory.EmptySourceIsUnreadable`). An account is readable if and only if
  every grant issued to it named its source (`LedgerHistory.ReaderAcceptsExactly`).
* A command identity that is the empty text is stored but not looked up, so the same command
  under a second key is refused by the unique index instead of being replayed
  (`CommandReceiptRuns.EmptyIdentityIsNotReplayed`, `CommandReceiptRuns.RepeatedIdentity`).
* `withTransaction` succeeds although nothing is committed when its callback swallows the error of
  a query and returns (`NestedSession.SwallowedErrorCommitsNothing`). It commits the callback's
  data if and only if no such error was swallowed at the outermost level
  (`NestedSession.CommitsExactly`, `NestedSession.PostgresConnection.WithTransaction`).

The comment at `src/modules/metering/metering-pricing.ts:68-70` bounds an unreduced sum by 157
digits; the model proves the sharper bound 2 * 10^156.

## Model

| member | source | states |
|---|---|---|
| CreditRepository.CreditRepository.NextJournalSequence | src/modules/credit/credit.repository.ts:868-878 | the next sequence is one more than the largest of the account |
| CreditRepository.CreditRepository.RefreshGrant | src/modules/credit/credit.repository.ts:900-945 | one grant row: opening credits the remaining amount; ending leaves what open holds reserve, writes the expiry entry and debits the rest; equal to the ledger step |
| CreditRepository.CreditRepository.RefreshAll | src/modules/credit/credit.repository.ts:895-945 | the walk over all grants of the account in id order, with the sum of the deltas |
| CreditRepository.CreditRepository.RefreshGrantWindows | src/modules/credit/credit.repository.ts:880-955 | performs the refresh step of the ledger or rolls back |
| CreditRepository.CreditRepository.Grant | src/modules/credit/credit.repository.ts:299-401 | performs the grant step: replay, conflict, or a new grant with two clock readings; rolls back on failure |
| CreditRepository.CreditRepository.Issue | src/modules/credit/credit.repository.ts:360-400 | the rows of a new grant: the grant, the account projection when effective, the journal entry; refused when a CHECK or the width of a source column is violated |
| CreditRepository.CreditRepository.Reserve | src/modules/credit/credit.repository.ts:403-509 | performs the reserve step: replay by key, refresh, greedy allocation; rolls back on failure |
| CreditRepository.CreditRepository.Place | src/modules/credit/credit.repository.ts:443-508 | balance check, allocation, hold row, allocation rows, account projection |
| CreditRepository.CreditRepository.Take | src/modules/credit/credit.repository.ts:461-471 | the greedy loop computes the burn allocation of the ordered grants |
| CreditRepository.CreditRepository.Allocate | src/modules/credit/credit.repository.ts:489-498 | one allocation row per piece taken |
| CreditRepository.CreditRepository.Capture | src/modules/credit/credit.repository.ts:511-515 | performs the finishing step as a capture |
| CreditRepository.CreditRepository.Release | src/modules/credit/credit.repository.ts:516-520 | performs the finishing step as a release of the whole hold |
| CreditRepository.CreditRepository.FinishHold | src/modules/credit/credit.repository.ts:522-771 | checks, replay of a terminal hold, closing; performs the finishing step or rolls back |
| CreditRepository.CreditRepository.AssertTerminalAllocations | src/modules/credit/credit.repository.ts:816-862 | the row checks and running totals answer exactly whether hold and allocations reconcile |
| CreditRepository.CreditRepository.ChargeAllocation | src/modules/credit/credit.repository.ts:690-728 | charges one allocation and its grant, or reports that a row changed |
| CreditRepository.CreditRepository.ChargeAll | src/modules/credit/credit.repository.ts:674-730 | the charging loop over the allocations in burn order |
| CreditRepository.CreditRepository.Close | src/modules/credit/credit.repository.ts:653-761 | hold transition, charging, account projection and debit entry of a terminal call |
| CreditRepository.CreditRepository.ListMyLedger | src/modules/credit/credit.repository.ts:122-274 | finds the account of the subject or says that there is none, and answers one page exactly as the specification of the reader, source texts included |
| LedgerRefreshProof.RefreshKeeps | src/modules/credit/credit.repository.ts:880-955 | a refresh keeps the invariant; its possibly negative delta never overdraws the account |
| LedgerRefreshProof.RefreshSettles | src/modules/credit/credit.repository.ts:895-945 | after a refresh every grant of the account is up to date, no other grant changed, and refreshing again at the same instant changes nothing |
| LedgerRefreshProof.AvailableIsFree | src/modules/credit/credit.repository.ts:451-460 | the available balance of a sound ledger is the unreserved remainder of the non-pending grants |
| LedgerGrantProof.GrantKeeps | src/modules/credit/credit.repository.ts:360-400 | a new grant keeps the ledger sound if and only if the effective time does not fall between the two clock readings; a replay changes nothing |
| LedgerGrantProof.IssuedExactly | src/modules/credit/credit.repository.ts:299-401 | a grant of a new source in full: refused exactly for an amount, an end, a source text or a balance out of range; otherwise the columns of its grant row, of its journal entry and of the account |
| LedgerGrantProof.GrantReplayFindsJournal | src/modules/credit/credit.repository.ts:326-358 | a replayed grant always finds its journal entry and no unique index is hit |
| LedgerGrantProof.GrantReplayExactly | src/modules/credit/credit.repository.ts:319-358 | a repeated source is answered with its grant exactly if account, program, amount and both times are the same, and is a conflict otherwise |
| LedgerGrantProof.RacingGrantCountsTwice | src/modules/credit/credit.repository.ts:376-387 | concrete values on which the two clock readings disagree and a grant of 100 is credited twice |
| LedgerReserveProof.BurnIsGreedy | src/modules/credit/credit.repository.ts:461-471 | the allocation takes a prefix of the giving grants, drains all but the last, skips none, and succeeds exactly when they cover the request |
| LedgerReserveProof.PlaceHoldExactly | src/modules/credit/credit.repository.ts:443-508 | a hold is placed exactly when the eligible grants cover the request and the held column stays within its range |
| LedgerReserveProof.AvailableSplits | src/modules/credit/credit.repository.ts:446-476 | the available balance is the eligible credit plus what grants keep unreserved that are not eligible |
| LedgerReserveProof.AvailableIsSpendable | src/modules/credit/credit.repository.ts:446-476 | a reserve can spend the whole available balance if and only if every grant with an unreserved remainder is eligible; it can never spend more |
| LedgerReserveProof.SpendableAfterRefresh | src/modules/credit/credit.repository.ts:446-476 | after a refresh at that instant: if and only if no expired grant keeps an unreserved remainder (and no active one starts later, on a clock set back) |
| LedgerReserveProof.ReserveKeeps | src/modules/credit/credit.repository.ts:403-509 | every successful reserve keeps the invariant |
| LedgerReserveProof.ReserveReplayExactly | src/modules/credit/credit.repository.ts:403-441 | a repeated hold key is answered with its hold exactly if account, amount and feature are the same, and is a conflict otherwise |
| LedgerBurnOrder.ReserveBurnsInOrder | src/modules/credit/credit.repository.ts:451-476 | in columns: a hold takes only from active grants of its account inside their window, and from none while one that expires no later, or with lower priority, or issued earlier, or with smaller uuid, keeps unreserved credit |
| LedgerFinishProof.ClosingTakes | src/modules/credit/credit.repository.ts:690-728 | grant by grant the closing takes the captured amount and nothing else |
| LedgerFinishProof.TakenFromOwnAccount | src/modules/credit/credit.repository.ts:714-726 | only grants of the hold's own account are charged |
| LedgerRuns.CloseHoldExactly | src/modules/credit/credit.repository.ts:653-770 | an open hold always closes, short of overflow; its allocations are charged as a greedy prefix in burn order |
| LedgerRuns.ChargeSucceeds | src/modules/credit/credit.repository.ts:674-730 | the charging walk never meets a changed row or an uncovered grant and ends with nothing left |
| LedgerRuns.IntegrityChecksPass | src/modules/credit/credit.repository.ts:816-862 | on a sound ledger the allocation checks of a hold always pass |
| LedgerReconciliation.RowsReconcileExactly | src/modules/credit/credit.repository.ts:816-862 | on any ledger the checks of the rows of a hold pass exactly if each row fits its hold and grant, column by column, and the three columns sum to those of the hold |
| LedgerReconciliation.CorruptionIsRefused | src/modules/credit/credit.repository.ts:540-585 | on any ledger, a legal capture or release of a hold that does not reconcile is refused as corrupt |
| LedgerReconciliation.FinishedExactly | src/modules/credit/credit.repository.ts:586-628 | on any ledger, what a repeated capture or release of a finished hold answers: corrupt exactly if hold, rows, account or debit do not reconcile, a replay exactly for the same end, a conflict otherwise |
| LedgerRuns.CaptureOwnsOneDebit | src/modules/credit/credit.repository.ts:586-609 | a positive capture owns exactly one debit of its source in the tenant |
| LedgerRuns.FinishExactly | src/modules/credit/credit.repository.ts:522-771 | capture and release decided in full: every refusal with its cause, no corruption branch reachable, and what an accepted call does |
| LedgerRuns.StepKeeps | src/modules/credit/credit.repository.ts:299-955 | every ledger operation keeps the invariant, under agreeing clock readings of a grant |
| LedgerRuns.EveryRunKeeps | src/modules/credit/credit.repository.ts:299-955 | so does every run of operations with arbitrary times |
| LedgerRuns.BooksAfterAnyRun | src/modules/credit/credit.repository.ts:299-955 | after any run: available + held = remaining of the non-pending grants, held = requested over open holds, 0 <= reserved <= remaining <= original, and the journal sum with the pending and lapsed terms |
| LedgerRuns.JournalAfterAnyRun | src/modules/credit/credit.repository.ts:868-878 | after any run: sequences are 1..n per account, kind and source are unique, and no prefix sum is negative, not even inside one refresh |
| LedgerRuns.TerminalHoldsAbsorb | src/modules/credit/credit.repository.ts:586-628 | a finished hold never changes; repeating the call returns the same amounts and changes nothing |
| LedgerBurnOrder.CaptureBurnsInOrder | src/modules/credit/credit.repository.ts:674-730 | in columns: a row that something was captured from comes no later, by expiry, priority, issue time and uuid, than any row that something was released of |
| LedgerRuns.ReserveSucceedsExactly | src/modules/credit/credit.repository.ts:403-509 | a new hold is placed if and only if, after the refresh, the eligible credit covers the request |
| LedgerRuns.ReleasedAfterExpiryIsStranded | src/modules/credit/credit.repository.ts:734-745 | a concrete run (grant 100 until 10, reserve at 2, refresh at 11, release) that leaves 100 available of which no reserve can ever take a unit |
| LedgerPaging.BalanceIsPrefixSum | src/modules/credit/credit.repository.ts:190-200 | the balance shown with an entry is the sum of the account's entries up to it |
| LedgerPaging.WritersSatisfyReader | src/modules/credit/credit.repository.ts:143-162 | a journal as the ledger writes it passes every check of the reader if and only if the integrity query finds no invalid row of the account; the balances shown are prefix sums |
| LedgerReader.FirstPageExactly | src/modules/credit/credit.repository.ts:143-274 | on any journal with one entry for each sequence, what a call without cursor answers: corrupt for a bad row or an overdrawn balance, or else the newest entries up to the limit, with a cursor exactly if some remain |
| LedgerReader.NextPageExactly | src/modules/credit/credit.repository.ts:137-274 | and a call with a cursor: refused for a foreign or unknown one, corrupt as before, or else the newest entries behind it |
| LedgerPaging.PageIsNext | src/modules/credit/credit.repository.ts:188-274 | on a journal that passes, a page is accepted and shows the next stretch of the history |
| LedgerPaging.PagingShowsHistoryOnce | src/modules/credit/credit.repository.ts:164-274 | following nextCursor over journals that pass, with any appends between pages and any limits, shows every entry up to the first high-water mark exactly once, newest first, and ends |
| LedgerPaging.FollowStops | src/modules/credit/credit.repository.ts:143-162 | a session that meets a journal failing the integrity query fails unless it ended before |
| LedgerHistory.StepReads | src/modules/credit/credit.repository.ts:299-955 | an operation makes the history of an account unreadable exactly by issuing it a grant with an empty source kind or reference |
| LedgerHistory.ReadsOwnAccount | src/modules/credit/credit.repository.ts:122-141 | in every sound ledger a subject reads the journal of its own account, and its balances are never the reason of a refusal |
| LedgerHistory.ReaderAcceptsExactly | src/modules/credit/credit.repository.ts:122-274 | after any run a subject can read its history if and only if every grant issued to its account named its source; otherwise every reading reports corruption |
| LedgerHistory.EmptySourceIsUnreadable | src/modules/credit/credit.repository.ts:143-162 | concrete values: a grant with an empty reference succeeds and its account is unreadable from then on |
| LedgerHistory.PagingDuringAnyRun | src/modules/credit/credit.repository.ts:122-274 | a session with any ledger operations between its pages shows each entry of its first page once and ends; it is told of corruption if and only if a grant without a named source was issued to the account before it ended |
| AllocateGrants.AllocateCreditGrants | src/application/credit/services/allocate-grants.ts:35-70 | filter, sort, cover check and greedy loop: refused exactly for an invalid amount or too little credit, otherwise the burn allocation of the sorted giving grants; in the fields of the grants, none gives while one before it keeps credit |
| AllocateGrants.TakeInOrder | src/application/credit/services/allocate-grants.ts:61-69 | the loop takes greedily until nothing is left |
| AllocateGrants.ReserveIsAllocate | src/modules/credit/credit.repository.ts:451-476 | the reserve loop allocates exactly what allocateCreditGrants allocates on the eligible grants, and fails in the same cases |
| BurnOrder.SortByKeeps | src/application/credit/services/allocate-grants.ts:43-51 | sorting by expiry, priority, issue time and id neither adds, drops nor repeats a grant |
| BurnOrder.SortByOrders | src/application/credit/services/allocate-grants.ts:43-51 | in columns: of two sorted grants the first expires no later (never expiring last), with equal expiry has no larger priority, then is issued no later, then has no larger id |
| Rationals.GreatestCommonDivisor | src/modules/metering/metering-pricing.ts:57-60 | the loop computes the greatest common divisor |
| Rationals.FractionIsReduced | src/modules/metering/metering-pricing.ts:62-74 | fraction is the lowest-terms form, refused exactly when that form exceeds 78 digits |
| Rationals.ReducedIsUnique | src/modules/metering/metering-pricing.ts:62-74 | two lowest-terms forms of one value are equal |
| Rationals.MultiplyIsPlain | src/modules/metering/metering-pricing.ts:76-83 | cross-cancelling multiplication is plain multiplication in lowest terms |
| Rationals.AddIsPlain | src/modules/metering/metering-pricing.ts:85-92 | addition over the least common denominator is plain addition in lowest terms |
| Rationals.MultiplyExactly | src/modules/metering/metering-pricing.ts:76-83 | multiply fails exactly when the true product has no 78-digit form |
| Rationals.AddExactly | src/modules/metering/metering-pricing.ts:85-92 | add fails exactly when the true sum has no 78-digit form |
| Rationals.IntermediateBounds | src/modules/metering/metering-pricing.ts:68-72 | unreduced products stay below 10^156 and unreduced sums below 2 * 10^156 |
| Rationals.CeilingIsLeast | src/modules/metering/metering-pricing.ts:215-217 | the rounding is the least integer not below the value |
| PricingTexts.FitsByDigits | src/modules/metering/metering-pricing.ts:42-47 | a fraction is in range exactly if numerator and denominator have at most 78 decimal digits |
| PricingTexts.IdentifierByLetters | src/modules/metering/metering-pricing.ts:22-28 | identifiers against the written-out alphabet: a letter, then up to 127 letters, digits, underscores, dots and hyphens |
| PricingTexts.CurrencyByLetters | src/modules/metering/metering-pricing.ts:30-33 | currency codes: three letters of the written-out upper-case alphabet |
| PricingTexts.UsageRowExactly | src/modules/metering/metering-pricing.ts:139-150 | which usage rows are accepted, and which error the others get |
| PricingTexts.RateRowExactly | src/modules/metering/metering-pricing.ts:153-171 | which rate rows are accepted, and which error the others get |
| PricingTexts.HeaderExactly | src/modules/metering/metering-pricing.ts:102-111 | which headers are accepted and which error the others get, given the order of the checks |
| MeteringPricing.CollectRows | src/modules/metering/metering-pricing.ts:113-173 | the three validating loops accept exactly rows that are distinct, known, of matching unit and currency, and complete |
| MeteringPricing.CheckInclusions | src/modules/metering/metering-pricing.ts:126-136 | the walks over the inclusion graph |
| MeteringPricing.SumIncluded | src/modules/metering/metering-pricing.ts:175-184 | the included totals are the sums over the children |
| MeteringPricing.CostBuckets | src/modules/metering/metering-pricing.ts:186-209 | net quantities and the bounded cost sum in key order |
| MeteringPricing.PriceMeteredAttempt | src/modules/metering/metering-pricing.ts:99-228 | the imperative form equals the pricing function, errors included |
| PricingForest.WalksAcceptForests | src/modules/metering/metering-pricing.ts:126-136 | the walks end and accept exactly the single-parent forests with existing parents and equal units |
| PricingForest.NetOfProfile | src/modules/metering/metering-pricing.ts:175-204 | all net quantities sum to what the roots report |
| PricingForest.NetOfSubtree | src/modules/metering/metering-pricing.ts:175-204 | the net quantities of a subtree sum to what its root reports |
| PricingProof.PricesExactly | src/modules/metering/metering-pricing.ts:186-228 | an attempt is priced exactly when it meets its specification, and creditMicros is the ceiling of multiplier x conversion x sum of net quantity x rate over the reals |
| PricingOrder.OrderDoesNotMatter | src/modules/metering/metering-pricing.ts:113-210 | permuting buckets, usage or rates changes neither success nor any field |
| PricingOrder.NetUsageAccounts | src/modules/metering/metering-pricing.ts:196-209 | in a price, nothing is counted twice or lost, for the profile and for every subtree |
| AgentJsonReader.AgentJsonReader.Whitespace | src/modules/metering/agent-usage-json.ts:25-27 | moves the offset over white space |
| AgentJsonReader.AgentJsonReader.ReadString | src/modules/metering/agent-usage-json.ts:28-57 | reads a string or fails, exactly as the grammar of strings says |
| AgentJsonReader.AgentJsonReader.ReadValue | src/modules/metering/agent-usage-json.ts:58-115 | reads the value at the offset and moves behind it, or fails |
| AgentJsonReader.AgentJsonReader.ReadItems | src/modules/metering/agent-usage-json.ts:87-103 | the array loop |
| AgentJsonReader.AgentJsonReader.ReadMembers | src/modules/metering/agent-usage-json.ts:63-86 | the object loop, which refuses a repeated key |
| AgentJsonReader.ParseAgentJson | src/modules/metering/agent-usage-json.ts:8-120 | byte budget, UTF-8, one value and nothing behind it |
| AgentJsonGrammar.ParsesExactly | src/modules/metering/agent-usage-json.ts:58-120 | the reader accepts exactly the language of legal syntax trees: whole text, no repeated key at any level, depth bound |
| AgentJsonCanonical.UnescapeOfEscape | src/modules/metering/agent-usage-json.ts:38-41 | escaping loses nothing |
| AgentJsonCanonical.ParseOfCanonical | src/modules/metering/agent-usage-json.ts:133-143 | parsing the canonical form gives back the value |
| AgentJsonCanonical.CanonicalIsInjective | src/modules/metering/agent-usage-json.ts:133-143 | different values have different canonical forms |
| AgentJsonCanonical.KeyOrderIsUnique | src/modules/metering/agent-usage-json.ts:137-138 | the canonical form does not depend on the order of the keys |
| AgentJsonCanonical.AcceptedIsPrintable | src/modules/metering/agent-usage-json.ts:8-143 | an accepted text has a canonical form that is accepted with the same value |
| AgentJsonCanonical.BytesOfCanonical | src/modules/metering/agent-usage-json.ts:8-20 | the UTF-8 bytes of a canonical text are read back as that text and value exactly when they fit the budget |
| AgentJsonText.EscapeUnitByNumbers | src/modules/metering/agent-usage-json.ts:134 | what is printed for each code unit, by numbers: the seven two-unit escapes, four lower-case hexadecimal digits for other controls and unpaired surrogates, every other unit as itself |
| AgentJsonText.PlainPrintsAsItself | src/modules/metering/agent-usage-json.ts:134 | a text without controls, quotes, backslashes and unpaired surrogates is printed as itself between quotes |
| AgentJsonText.EscapeIsShortest | src/modules/metering/agent-usage-json.ts:134 | no spelling of a text is shorter than the printed one |
| AgentJsonText.UnescapeByNumbers | src/modules/metering/agent-usage-json.ts:38-41 | the value of each escape, by numbers, and which escapes there are |
| AgentJsonText.SpaceByNumbers | src/modules/metering/agent-usage-json.ts:25-27 | between tokens exactly the units 9, 10, 13 and 32 are skipped |
| AgentJsonText.AgentContentExactly | src/modules/metering/agent-usage-json.ts:44-54 | agents may spell exactly the texts without units below 32, unit 127 and unpaired surrogates, in any spelling |
| AgentJsonText.CanonicalByNumbers | src/modules/metering/agent-usage-json.ts:133-144 | the canonical form of each kind of value, by numbers, with the members in ascending order of their code units |
| UsageEvidence.ValidateUsage | src/modules/metering/agent-usage-evidence.ts:88-120 | the loops decide exactly the usage facts: counts, sum, totals state, child at most parent, classification |
| UsageEvidence.TotalsStay | src/modules/metering/agent-usage-evidence.ts:215-230 | once the totals of a usage are known their state never changes |
| UsageEvidence.UsageExactly | src/modules/metering/agent-usage-evidence.ts:88-120 | legal counts as a table: the totals add up or one is missing, no detail exceeds its total, and both states say just that |
| UsageEvidence.DecodedExactly | src/modules/metering/agent-usage-evidence.ts:132-159 | legal reports as a table: first or with another predecessor; undispatched without counts, or dispatched under a grant; with the digest of their facts |
| UsageEvidence.AcceptedExactly | src/modules/metering/agent-usage-evidence.ts:233-259 | a next report is accepted if and only if it is the same one, or the next revision naming its predecessor with everything known unchanged, field by field |
| UsageEvidence.DeniedIsNeverDispatched | src/modules/metering/agent-usage-evidence.ts:206-209 | a denied authorization stays denied along any chain, which is never dispatched, completed or given counts |
| UsageEvidence.ChainKeepsKnowledge | src/modules/metering/agent-usage-evidence.ts:233-259 | along any chain of successors every known field stays: seal, verified actual, outcome, dispatch, digest, profile, each reported count, and denied or granted authorizations; the revision counts the strict steps |
| UsageEvidence.PredecessorIsUnique | src/modules/metering/agent-usage-evidence.ts:250-256 | a strict successor fixes its predecessor |
| UsageEvidence.HistoryIsUnique | src/modules/metering/agent-usage-evidence.ts:233-259 | two strict chains with the same last report agree as far back as both go |
| UsageEvidence.WholeHistoryIsUnique | src/modules/metering/agent-usage-evidence.ts:132-141 | a strict chain from a first revision is as long as its last revision, so the last report fixes all of it |
| UsageEvidence.LastDigestFixesHistory | src/modules/metering/agent-usage-evidence.ts:154-159 | with digests of the canonical JSON under an injective hash, the digest of the last report alone fixes every report of its history |
| EvidenceJson.FactsAreInjective | src/modules/metering/agent-usage-evidence.ts:154-157 | two reports with the same JSON are the same report, up to the digests they carry |
| EvidenceJson.DigestFixesFacts | src/modules/metering/agent-usage-evidence.ts:154-159 | one digest of the canonical JSON belongs to one report, if SHA-256 is injective |
| EvidenceNames.TokenUsageByName | src/modules/metering/agent-usage-evidence.ts:154-159 | each field of the token usage stands under its own property name in the JSON a digest covers |
| EvidenceNames.FactsByName | src/modules/metering/agent-usage-evidence.ts:154-159 | so does each part of a report |
| Unicode.DecodeOfEncode | src/infrastructure/auth/billing-identity-header.ts:24 | UTF-8 decoding undoes encoding |
| Unicode.EncodeOfDecode | src/infrastructure/auth/billing-identity-header.ts:42-48 | the decoder accepts only what the encoder writes |
| IdentityHeader.DecodeOfEncodeHeader | src/infrastructure/auth/billing-identity-header.ts:19-50 | every valid identity encodes to a wire within the bounds that decodes back and that the contract accepts |
| IdentityHeader.EncodeOfDecodeHeader | src/infrastructure/auth/billing-identity-header.ts:26-50 | every accepted wire is the encoding of what it decodes to |
| IdentityHeader.LastCheckIsRedundant | src/infrastructure/auth/billing-identity-header.ts:47-48 | the final UTF-8 comparison never fails |
| IdentityHeader.CanonicalIsGrouped | src/infrastructure/auth/billing-identity-header.ts:38-41 | the letters that survive re-encoding are exactly the canonically grouped ones |
| IdentityHeader.PatternIsReencodeCheck | scripts/openapi-target.ts:146-147 | the contract pattern accepts exactly the non-empty bodies that survive the re-encode check |
| IdentityHeader.BoundsAreTight | src/infrastructure/auth/billing-identity-header.ts:30 | the bounds 1022 and 1363 are attained |
| IdentityHeader.IdentityByUnits | src/infrastructure/auth/billing-identity-header.ts:3-18 | an identity in code units: not empty, at most 191 or 255 points, no unit zero and no unpaired surrogate |
| IdentityHeader.LetterIsAlphabet | src/infrastructure/auth/billing-identity-header.ts:24-41 | the letter of each six bits is that of the written-out alphabet, which is read back as them, and the wire starts with "u1." |
| OutboxRepository.OutboxRepository.Enqueue | src/database/outbox.repository.ts:40-103 | performs the enqueue step: validation, the two lookups, conflict, the known id, or a new row |
| OutboxRepository.OutboxRepository.ClaimNext | src/database/outbox.repository.ts:105-132 | leases exactly the first due rows up to the limit and returns them |
| OutboxRepository.OutboxRepository.SelectDue | src/database/outbox.repository.ts:111-119 | the free rows in the order of next attempt and id |
| OutboxRepository.OutboxRepository.Lease | src/database/outbox.repository.ts:122-130 | sets token, lease end and attempts of the chosen rows and nothing else |
| OutboxRepository.OutboxRepository.LockFence | src/database/outbox.repository.ts:266-277 | finds the open row whose token the fence names |
| OutboxRepository.OutboxRepository.Renew | src/database/outbox.repository.ts:166-177 | performs the renew step |
| OutboxRepository.OutboxRepository.Retry | src/database/outbox.repository.ts:187-204 | performs the retry step |
| OutboxRepository.OutboxRepository.Terminal | src/database/outbox.repository.ts:240-264 | performs completion or dead-lettering |
| OutboxRepository.OutboxRepository.Requeue | src/database/outbox.repository.ts:206-238 | performs the requeue step |
| OutboxRepository.PicksArePrefix | src/database/outbox.repository.ts:111-120 | taking every free row with fewer than limit free rows before it is taking the first limit rows in due order |
| OutboxRepository.OneRowChanges | src/database/outbox.repository.ts:171-176 | a call that names a row by key and fence changes that row or none |
| OutboxRows.RowMatchesHistory | src/database/outbox.repository.ts:105-277 | in every state the columns of a row are what its history says: lease holder, attempts since the last requeue, generation = requeues, dead-letterings = generation + (1 if dead), completions <= 1, and the CHECK constraints |
| OutboxRows.FencedUnderOneClaim | src/database/outbox.repository.ts:166-264 | a fenced change happens under the lease of exactly one claim, with nothing but renewals since |
| OutboxRows.ClaimWaits | src/database/outbox.repository.ts:114-118 | a row is claimed again only after its lease ran out, its retry delay passed or it was requeued |
| OutboxRows.StaleHolderFails | src/database/outbox.repository.ts:166-264 | after another claim the old lease never succeeds |
| OutboxRows.CompletionIsFinal | src/database/outbox.repository.ts:249-255 | nothing happens to a completed row |
| OutboxRuns.RowsLive | src/database/outbox.repository.ts:40-277 | every row of every run lives such a life, whatever the interleaving and the clock readings |
| OutboxRuns.FencedSuccess | src/database/outbox.repository.ts:166-264 | a fenced call that answers true changed one row under its own claim, the only one with its token, and nobody else claimed, finished or gave it back since |
| OutboxRuns.RequeueExactly | src/database/outbox.repository.ts:206-238 | a requeue of a known event succeeds exactly when the row is dead, the generation is the expected one and the delivery was not retired |
| OutboxRuns.RequeueOnce | src/database/outbox.repository.ts:216-225 | of two requeues with the same expected generation at most the first succeeds |
| OutboxRuns.RowsNeverCollide | database/schema.sql:181 | no two rows share an identity or an aggregate, so the unique indexes never reject an insert |
| OutboxRuns.EnqueueIsIdempotent | src/database/outbox.repository.ts:49-82 | two successful enqueues return one id exactly when they share the identity, exactly when they share the aggregate, and then the payload agrees |
| OutboxColumns.EnqueueExactly | src/database/outbox.repository.ts:40-103 | in columns: when an enqueue is refused, conflicts, answers the stored id, or adds a row, and every column of that row, its due time included |
| OutboxColumns.ClaimLeases | src/database/outbox.repository.ts:105-132 | in columns: a claim leases only rows of its tenant, namespace and event types that are open, due and not leased beyond this instant, with its token, for its duration, one attempt more |
| OutboxColumns.ClaimSkips | src/database/outbox.repository.ts:111-120 | conversely: such a row is left out only if as many rows as the limit were leased, each earlier by next attempt and id |
| OutboxColumns.ClaimAnswersWithLeases | src/database/outbox.repository.ts:105-132 | the answer lists exactly the leased rows, at most the limit, or the claim is refused and leases nothing |
| OutboxColumns.FencedExactly | src/database/outbox.repository.ts:134-204 | in columns: renewing, retrying, completing and dead-lettering succeed exactly under the running lease of the fence, and what they make of the row, lease end and retry time included |
| OutboxColumns.RequeueLeaves | src/database/outbox.repository.ts:206-238 | in columns: exactly which row is requeued and what becomes of it |
| CommandReceiptRepository.CommandReceiptRepository.Execute | src/database/command-receipt.repository.ts:18-27 | performs the receipt step and rolls back on any error |
| CommandReceiptRepository.CommandReceiptRepository.Attempt | src/database/command-receipt.repository.ts:29-143 | lookups, conflict checks, replay or a new command |
| CommandReceiptRepository.CommandReceiptRepository.RunCommand | src/database/command-receipt.repository.ts:109-142 | receipt, binding, effect, encoding and completion of a new command |
| CommandReceiptRepository.CommandReceiptRepository.CompleteReceipt | src/database/command-receipt.repository.ts:128-136 | the completing update finds exactly the receipt just inserted |
| CommandReceiptRuns.KeyLeadsToReceipt | src/database/command-receipt.repository.ts:47-78 | a bound key leads to a receipt of its own scope |
| CommandReceiptRuns.ExecuteKeeps | src/database/command-receipt.repository.ts:29-143 | every call keeps the tables sound and is a failure without effect, a replay, or one new receipt |
| CommandReceiptRuns.OneReceiptPerCommand | src/database/command-receipt.repository.ts:29-143 | two successes that share a key or a non-null identity have one receipt and equal digest, version and identity; the later one is a replay |
| CommandReceiptRuns.OneValuePerCommand | src/database/command-receipt.repository.ts:94-107 | they return the same value, also through different codecs, if each decodes what codecs of its version stored |
| CommandReceiptRuns.OneEffectPerReceipt | src/database/command-receipt.repository.ts:109-142 | behind every answer stands exactly one run of the effect |
| CommandReceiptRuns.OnlyEffectsChangeTheWorld | src/database/command-receipt.repository.ts:81-107 | a replay or a failure leaves the data alone |
| CommandReceiptRuns.NeverCorrupt | src/database/command-receipt.repository.ts:73-103 | with codecs that read what their command stores the corrupt and incomplete branches are unreachable, and the unique index is hit only by an empty identity |
| CommandReceiptRuns.RepeatedIdentity | src/database/command-receipt.repository.ts:37-72 | a repeat under a fresh key with the same non-null identity is replayed if and only if the identity is not the empty text |
| CommandReceiptRuns.RepeatedKey | src/database/command-receipt.repository.ts:47-107 | a repeat under the same key is always replayed |
| CommandReceiptRuns.EmptyIdentityIsNotReplayed | database/schema.sql:707-709 | concrete calls: the empty identity under two keys hits the unique index |
| CommandReceiptColumns.InvalidExactly | src/database/command-receipt.repository.ts:206-215 | a request is invalid exactly without a key or command, with a digest that has not 64 characters, or with a version below one |
| CommandReceiptColumns.ConflictExactly | src/database/command-receipt.repository.ts:46-82 | a valid request conflicts exactly when a receipt its key or its identity leads to differs in identity, version or digest |
| CommandReceiptColumns.ViolationsExactly | database/schema.sql:143 | the table refuses a new receipt exactly for a digest that is not hexadecimal, or an empty identity the scope already holds |
| NestedSession.PostgresConnection.Control | src/infrastructure/postgres/connection.ts:104-115 | a control statement is sent only while healthy; a failure poisons the transaction |
| NestedSession.PostgresConnection.ReleaseClient | src/infrastructure/postgres/connection.ts:84-102 | the client is handed back at most once |
| NestedSession.PostgresConnection.BeginTransaction | src/infrastructure/postgres/connection.ts:165-195 | BEGIN or a savepoint one level deeper, refused after a swallowed query error |
| NestedSession.PostgresConnection.CommitTransaction | src/infrastructure/postgres/connection.ts:197-215 | RELEASE of the top savepoint, refused after a swallowed query error; or COMMIT and hand-back, where an aborted server keeps nothing |
| NestedSession.PostgresConnection.RollbackTransaction | src/infrastructure/postgres/connection.ts:217-238 | unwinds one level even when poisoned, restoring the savepoint when healthy |
| NestedSession.PostgresConnection.RunQuery | src/infrastructure/postgres/connection.ts:127-154 | a query of the callback: refused when poisoned, its error passed on without poisoning, and the server aborted by it |
| NestedSession.PostgresConnection.Finish | src/infrastructure/postgres/connection.ts:242-253 | commit if the callback returned, roll back if it threw or the commit failed |
| NestedSession.PostgresConnection.Perform | src/infrastructure/postgres/connection.ts:240-243 | running the callback keeps depth and savepoints, sends no COMMIT, and does what it means unless the session is given up, which on a lossless connection happens exactly when its meaning says so |
| NestedSession.PostgresConnection.WithTransaction | src/infrastructure/postgres/connection.ts:240-254 | depth on exit is depth on entry; a failing call restores its savepoint and a successful one merges; nothing is sent after a failure; the client is handed back once; success commits the data the callback made, or nothing if the callback returned over a failed query of its own; an error commits nothing unless the answer to COMMIT was lost or the hand-back threw |
| NestedSession.SwallowsExactly | src/infrastructure/postgres/connection.ts:240-254 | a callback returns into an aborted session exactly if a query of its own level failed and every later step was a query whose error it swallowed too |
| NestedSession.CommitsExactly | src/infrastructure/postgres/connection.ts:240-254 | a successful outermost call commits the data of its callback if and only if the callback swallowed no query error at that level (or made no change) |
| NestedSession.RethrowingIsPlain | src/infrastructure/postgres/connection.ts:240-254 | a callback that lets query errors pass means what nested transactions should mean, and its data is never lost |
| NestedSession.SwallowedErrorCommitsNothing | src/infrastructure/postgres/connection.ts:139-150 | concrete values: a callback writes, swallows a failing query and returns; the call succeeds and nothing is committed |
| Decimals.NumeralOfValue | src/modules/metering/metering-pricing-revision-codec.ts:144-152 | a canonical decimal is the numeral of its value |
| RateRevisionProof.TextsTellRatesApart | src/modules/metering/metering-pricing-revision-codec.ts:292-312 | the JSON texts used as keys, bindings and groups, and the UTF-8 bytes of the key, tell exactly the rates apart that differ in those fields |
| RateSets.IntervalsFit | src/modules/metering/metering-pricing-revision-codec.ts:272-290 | the loop over the intervals of a group |
| RateSets.FileRows | src/modules/metering/metering-pricing-revision-codec.ts:294-313 | the pass with keys, currencies and intervals accepts exactly rows that are pairwise compatible |
| RateSets.CheckRateSet | src/modules/metering/metering-pricing-revision-codec.ts:292-316 | answers the sorted list exactly for acceptable sets |
| RateRevisionProof.AnyOrderIsAccepted | src/modules/metering/metering-pricing-revision-codec.ts:292-316 | a set is accepted in every order or in none |
| RateRevisionProof.SortRatesIsStable | src/modules/metering/metering-pricing-revision-codec.ts:314-315 | all orders of a set are sorted into one list, and sorting it again changes nothing |
| RateRevisionProof.ParseOfTextOf | src/modules/metering/metering-pricing-revision-codec.ts:410-429 | parsing the canonical text gives the tuple back |
| RateRevisionProof.UnpackContentTuple | src/modules/metering/metering-pricing-revision-codec.ts:430-489 | unpacking undoes packing |
| RateRevisionProof.EncodingIgnoresOrder | src/modules/metering/metering-pricing-revision-codec.ts:372-402 | permuting the rates does not change the text |
| RateRevisionProof.DecodeOfEncodeDraft | src/modules/metering/metering-pricing-revision-codec.ts:476-490 | decoding an encoded draft gives the draft with its rates in key order |
| RateRevisionProof.EncodeOfDecodeDraft | src/modules/metering/metering-pricing-revision-codec.ts:476-490 | only texts that encode back to themselves are decoded |
| RateRevisionProof.SameTextSameDraft | src/modules/metering/metering-pricing-revision-codec.ts:367-402 | two drafts have one text exactly when they differ in the order of the rates only |
| RateSelection.IntervalTestIsExact | src/modules/metering/metering-pricing-revision-codec.ts:272-290 | the interval test refuses exactly the pairs that some use would match both of, and the pairs that mix measures |
| RateSelection.AcceptedMeansUnambiguous | src/modules/metering/metering-pricing-revision-codec.ts:292-316 | with one currency per binding and one measure per group, a set is accepted if and only if no use matches two rates |
| RateSelection.AcceptedSetIsUnambiguous | src/modules/metering/metering-pricing-revision.repository.ts:222-267 | after validation no use matches two rates of a binding and its rates share a currency |
| RateSelection.SelectionIsExact | src/modules/metering/metering-pricing-revision.repository.ts:222-267 | selection serves every request with its one matching rate or says that one has none; never ambiguous, corrupt only for an empty list |
| RateSelection.SelectionFromAny | src/modules/metering/metering-pricing-revision.repository.ts:222-267 | selection from any stored set: corrupt exactly for mixed currencies of the binding or no request; else the first request without a single candidate decides, unavailable or ambiguous; else each request gets its candidate |
| RateStore.RateOfRow | src/modules/metering/metering-pricing-revision.repository.ts:519-560 | a stored row gives its rate back |
| RateStore.PublishReadsBack | src/modules/metering/metering-pricing-revision.repository.ts:489-591 | a published draft is rebuilt from its rows, with its digest |
| RateStore.PublishKeepsReads | src/modules/metering/metering-pricing-revision.repository.ts:56-154 | a publication leaves every earlier revision as it reads |
| RateStore.KeyDigestsDiffer | database/schema.sql:807-808 | the key digests of a revision differ if SHA-256 is injective, so the unique index never fires |
| RateIntegrity.RowReadsExactly | src/modules/metering/metering-pricing-revision.repository.ts:519-564 | a stored row gives an acceptable rate if and only if its columns are those of that rate, key digest included |
| RateIntegrity.ReadExactly | src/modules/metering/metering-pricing-revision.repository.ts:489-591 | reading a revision succeeds if and only if the tables hold precisely the rows that publishing the returned draft writes, under a header with its fields and the digest of its text |
| RateIntegrity.TamperingIsRefused | src/modules/metering/metering-pricing-revision.repository.ts:580-585 | whatever happens to the rows, under an injective hash the reader serves the digested draft, up to the order of its rates, or refuses |
| RateIntegrity.ConfirmsExactly | src/modules/metering/metering-pricing-revision.repository.ts:157-182 | a publication is confirmed if and only if it names the draft and its digest and the tables hold that draft |
| RateTexts.BusinessKeyByLetters | src/modules/metering/metering-pricing-revision-codec.ts:113-115 | business keys against the written-out alphabet |
| RateTexts.InstantExactly | src/modules/metering/metering-pricing-revision-codec.ts:129-142 | instants position by position |
| RateTexts.TextExactly | src/modules/metering/metering-pricing-revision-codec.ts:80-99 | texts of at most so many code points, none zero or an unpaired surrogate; the bound on code units follows |
| RateTexts.PriceExactly | src/modules/metering/metering-pricing-revision-codec.ts:144-164 | a price is accepted if and only if its parts are numerals of at most 78 digits, the denominator is positive, and no number from two on divides both |
| RateTexts.RangeExactly | src/modules/metering/metering-pricing-revision-codec.ts:148-201 | ranges: two keys, bounds in signed 64 bits, the lower below the upper |
| RateRevisionRepository.RateRevisionRepository.NextRevision | src/modules/metering/metering-pricing-revision.repository.ts:66-75 | one more than the largest revision of the tenant |
| RateRevisionRepository.RateRevisionRepository.PublishRate | src/modules/metering/metering-pricing-revision.repository.ts:56-154 | appends the header and one numbered row per rate, or refuses without change |
| RateRevisionRepository.LatestIsLatest | src/modules/metering/metering-pricing-revision.repository.ts:198-201 | in columns: the selected header is of the tenant and effective, and every other effective one of the tenant takes effect earlier, or at the same instant with a smaller revision; none is selected only if none is effective |
| RateRevisionRuns.EveryRevisionReadsBack | src/modules/metering/metering-pricing-revision.repository.ts:489-591 | after any publications every published revision reads back as its draft in key order |
| RateRevisionRuns.EveryPublicationIsConfirmed | src/modules/metering/metering-pricing-revision.repository.ts:157-182 | the read-back of a publication never reports corruption, then or later |
| RateRevisionRuns.RevisionsAreConsecutive | src/modules/metering/metering-pricing-revision.repository.ts:66-75 | the revisions of a tenant are 1, 2, 3, ... in order of publication |
| RateRevisionRuns.ActiveSelectionIsExact | src/modules/metering/metering-pricing-revision.repository.ts:184-267 | whatever was published, selection answers from the publication of the tenant that took effect last, and has the largest revision among those of that instant: unavailable without one or for another profile, corrupt for an empty request, one matching rate per request if every request has one, otherwise unavailable; never ambiguous |

## Left out

- Ledger: the disabled flag of an account, audit rows and `openMyAccount`; one tenant is modelled, so filtering by tenant is not.
- Ledger: 64-bit overflow of journal sequences and of row sums; overflow is modelled for the two balances of an account and for granted amounts.
- Ledger: the text encoding of the paging cursor and the creation time of an entry; the widths of text columns other than the source columns; PostgreSQL cuts surplus trailing blanks of an over-long source text where the model refuses it.
- Ledger: the column `lapsed` of the model marks grants that expired while pending; no branch reads it, it names a term of the journal equation.
- AllocateGrants.AllocateCreditGrants: sums are unbounded integers and dates compare as numbers, where the source adds JavaScript numbers and compares ISO texts by locale.
- Pricing: checks of property shapes; inputs are typed values.
- Identity header: `billingHeaderCount`.
- Evidence: schema validation by Ajv and the wrapper that binds a report to a stored snapshot; reports are typed records that passed the schema, with numbers in place of decimal texts, and SHA-256 is a parameter (injective where a theorem says so).
- Outbox: rounding of stored times to milliseconds and several clock readings inside one statement; payload bodies; audit rows of a requeue; column widths.
- OutboxRepository.OutboxRepository.ClaimNext: the order of the returned leases, which SQL does not fix, is not modelled; the answer is a set.
- Command receipts: effects that call back into the receipts; column widths of the request texts.
- Nested sessions: a failing checkout from the pool, diagnostics, and queries outside a transaction.
- Nested sessions: a callback is a tree of steps whose course depends on the answers only through the errors it meets; a query whose error is fatal is a break of the connection followed by a failing query.
- Rate revisions: the policy codec and its table, which repeat the rate codec without the rate set, and the policy half of selection.
- Rate revisions: calendar functions and SHA-256 are parameters; JSON.parse is the reader of this project without depth limit, which differs only on texts (numbers, repeated keys) that the re-encoding check refuses anyway.
- The other entitlement repositories (settlement, admission, redemption), which are a second form of the same ledger; the payment transition tables, which are finite.
- HTTP controllers, guards, queues, Stripe and IAM clients, configuration and generated code: input and output around these kernels.
