# Verified models of the back-office core

Dafny models of the parts of the repository whose correctness spans several calls: database
protocols, ledger arithmetic, parsers and caches under `apps/api/src/lib`, and the sprint-status
fixer under `scripts`. `dafny verify dfyconfig.toml` checks everything.

Database tables are fields or map values, a transaction either commits or leaves them as they
were, and everything outside the code (clock, mailer, database faults, journal service, Markdown
rendering) is a parameter over which the results are proved for all values. Objects that update
rows or buffers in place are classes whose methods are proved against a specification function or
relation. The whole-run theorems are about those same functions and relations.

- **Fiscal-year close** (`ClosingEntries`, `FiscalYearClose`, `FiscalYearRuns`). Initiate claims an
  idempotency key, approve locks, claims, posts and closes. `Outcome` and `After` say what one
  approve transaction does, `CloseStore` does it row by row with rollback and retries, and
  `FiscalYearRuns` splits transactions into locking steps, lets any number of them interleave and
  shows that each commit equals the whole operation run alone.
- **Table occupancy** (`TableOccupancy`, `TableOccupancyRuns`). Hold, seat and release under
  optimistic versions, service sessions and the append-only event log. Transactions read from a
  possibly stale view and are split at session insert, guarded update and commit.
- **Document numbers** (`Calendar`, `Decimal`, `Text`, `NumberPattern`, `Numbering`,
  `NumberingRuns`). Day numbers on one clock, ISO weeks, pattern expansion, allocation with period
  resets and manual reservations.
- **Accounting import** (`CsvText`, `Amount`, `ImportLedger`, `ImportRuns`, `ImportDrift`,
  `ImportConcurrency`). The CSV reader, the amount reader, and the import transaction in whole cents:
  validation, duplicate detection, chunked journal lines and the incremental balance table, in
  sequence and with imports that overlap.
- **Password-reset limiter** (`ResetThrottle`), **e-mail outbox** (`EmailOutbox`), **static pages**
  (`StaticPages`), **sprint-status fixer** (`SprintKeys`, `SprintStatus`), **barcodes**
  (`Barcodes`).

Where the code differs from what its comments or tables lead a reader to expect, the model follows
the code and a lemma says exactly when the expected result holds:

- `GetISOWeekCorrectIff`: the Date constructor takes years 0 to 99 for 1900 to 1999, so the week is
  right exactly when neither the date nor its Thursday lies in such a year.
- `ClosingEntriesBalanceIff`, `ClosingZeroesAccounts`, `NoIncomeAccountsCloseIff`: the closing entry
  uses absolute balances, so it balances exactly when contra balances of income and expense
  accounts are equal. Income is recognised by normal balance `K`, while the accounting import
  stores `C`.
- `NullResetNeverFires`, `SeededTemplatesCountUp`: default templates are seeded without a reset date,
  and a null reset date never triggers a reset.
- `BalanceColumnCorrectIff`, `SecondImportBreaksBalance`: the upsert of `account_balances_current`
  adds the new amounts to columns that were already assigned, so the `balance` column is right exactly
  for accounts without an earlier row and for imports whose debits and credits on the account are
  equal. The two totals are always right.
- `CutLineRoundTripIff`, `DotUnitsRoundTripIff`: lines are cut of trailing white space, which drops
  a trailing empty field after a tab; dot-grouped whole amounts are read back exactly below 1000.
- `LimitHoldsIff`, `LastSecondIsUnlimited`: the check reads a millisecond clock and the record a clock
  of whole seconds. In the second in which the hour of a window ends, past its first instant, the
  check already allows everything while the record still counts in the old window, so nothing limits
  the requests of that second. A key's limit holds in every window exactly when no attempt is recorded
  there once the limit is used up.
- `AcceptancesAreAccounted`, `AcceptedYetFailed`: the SENT update stands inside the `try`, so a message
  that the mailer accepted counts as failed, and is sent again, when that update cannot be written.

## Model

| member | source | states |
|---|---|---|
| `ClosingEntries.ScaledCheckIsExactOnGrid` | apps/api/src/lib/fiscal-years.ts:520-533 | on multiples of 0.0001 the scaled test accepts exactly the entries whose debit and credit totals are equal |
| `ClosingEntries.ScaledCheckTolerance` | apps/api/src/lib/fiscal-years.ts:520-533 | on arbitrary amounts an accepted entry of n lines is off by at most n * 0.0001 |
| `ClosingEntries.ClosingEntriesBalanceIff` | packages/modules/accounting/src/fiscal-year/service.ts:1308-1378 | the generated entry passes every balance check if and only if contra income equals contra expense |
| `ClosingEntries.ClosingZeroesAccounts` | packages/modules/accounting/src/fiscal-year/service.ts:1308-1378 | posting it takes each account on its normal side to zero, doubles the others, and moves the net income into retained earnings |
| `ClosingEntries.NoIncomeAccountsCloseIff` | packages/modules/accounting/src/fiscal-year/service.ts:1225-1303 | without any account marked `K` the entry balances if and only if no account has a credit surplus |
| `ClosingEntries.DebitSurplusBlocksTheClose` | packages/modules/accounting/src/fiscal-year/service.ts:1308-1378 | a concrete income account with a debit surplus for which the generated entry does not balance |
| `ClosingEntries.UnmarkedIncomeBlocksTheClose` | apps/api/src/lib/accounting-import.ts:52-73 | a concrete income account as the import marks it, for which the generated entry does not balance |
| `ClosingEntries.ImbalanceQueryIff` | packages/modules/accounting/src/journals-service.ts:558-595 | the imbalance query finds nothing if and only if the debits minus the credits of the stored lines, line by line, come to zero |
| `FiscalYearClose.CloseStore.Initiate` | packages/modules/accounting/src/fiscal-year/service.ts:614-680 | year missing and year closed, if and only if so; otherwise claims the key once with a pending row, answers the existing row on a repeat, and never touches the year |
| `FiscalYearClose.CloseStore.CreateManualEntry` | packages/modules/accounting/src/journals-service.ts:94-141 | a refused entry leaves no batch; an accepted one appends exactly one batch with the stored lines |
| `FiscalYearClose.CloseStore.ApproveBody` | apps/api/src/lib/fiscal-years.ts:410-633 | the transaction body, through IN_PROGRESS and the guarded updates, gives the outcome and tables of the atomic specification |
| `FiscalYearClose.CloseStore.UpdateRequest` | apps/api/src/lib/fiscal-years.ts:482-502 | the guarded update changes the row if and only if it has the expected status, and reports the number of rows |
| `FiscalYearClose.CloseStore.ApproveInTransaction` | packages/db/src/kysely/transaction.ts:119-146 | up to three attempts; every failure is rolled back, only transient ones are retried |
| `FiscalYearClose.CloseStore.ApproveFiscalYearClose` | apps/api/src/lib/fiscal-years.ts:402-666 | when exactly it closes, replays or refuses; a fresh close answers the totals of the preview, posts exactly one batch with its entries, or none without entries, reports that batch's id and writes one request and one year; failures and replays leave the tables unchanged; one snapshot at most |
| `FiscalYearClose.CloseStore.HasAutoSnapshotForFiscalYearEnd` | apps/api/src/lib/fiscal-years.ts:194-227 | finds an automatic snapshot if and only if one exists for the year's end date |
| `FiscalYearClose.CloseStore.TriggerAutoSnapshot` | apps/api/src/lib/fiscal-years.ts:105-192 | adds one snapshot at the year's end date when the snapshot service succeeds, and none otherwise |
| `FiscalYearClose.ApproveSucceedsIff` | apps/api/src/lib/fiscal-years.ts:504-560 | a pending request on an open year is approved if and only if contra income equals contra expense |
| `FiscalYearRuns.ExactlyOnce` | apps/api/src/lib/fiscal-years.ts:410-633 | consistent tables: closed if and only if one request succeeded, that request is unique, at most one closing batch |
| `FiscalYearRuns.CloseKeepsConsistent` | apps/api/src/lib/fiscal-years.ts:410-633 | closing a year keeps all five table invariants |
| `FiscalYearRuns.CommitIsAtomic` | apps/api/src/lib/fiscal-years.ts:427-502 | a commit of an interleaved transaction equals the atomic approve on the tables found at commit time |
| `FiscalYearRuns.StepIsAtomic` | apps/api/src/lib/fiscal-years.ts:410-633 | every step of an interleaving changes the committed tables by an atomic operation or not at all |
| `FiscalYearRuns.EveryRunClosesOnce` | apps/api/src/lib/fiscal-years.ts:410-633 | over every interleaving a year is closed if and only if a unique request succeeded, has at most one closing batch, and no committed request is IN_PROGRESS |
| `FiscalYearRuns.YearClosesAtMostOnce` | apps/api/src/lib/fiscal-years.ts:590-633 | no run takes a year from open to closed twice |
| `FiscalYearRuns.SuccessIsPermanent` | apps/api/src/lib/fiscal-years.ts:427-449 | a succeeded request is never changed by any later step |
| `FiscalYearRuns.ReplayRepeatsFirstAnswer` | apps/api/src/lib/fiscal-years.ts:427-449 | after any further steps a replay returns the batch ids, totals and statuses of the first success |
| `FiscalYearRuns.ClosingJournalIsPreview` | apps/api/src/lib/fiscal-years.ts:536-560 | after a commit and any further steps the closing batches of the year are exactly one, with the entries of the preview, or none if the preview has none |
| `FiscalYearRuns.CommittedCloseZeroesAccounts` | apps/api/src/lib/fiscal-years.ts:536-560 | whatever follows, the posted closing journal of a generated preview takes every account on its normal side to zero and moves the net income into retained earnings |
| `FiscalYearRuns.AutoSnapshotsBounded` | apps/api/src/lib/fiscal-years.ts:635-660 | over every sequence of new years, journal entries, initiates and approves, automatic snapshots never outnumber the closed years they belong to |
| `FiscalYearRuns.ReplayAddsNoSecondSnapshot` | apps/api/src/lib/fiscal-years.ts:635-660 | an approve that closes no year adds no snapshot once the one it would add exists |
| `TableOccupancy.OccupancyStore.EnsureTableOccupancy` | apps/api/src/lib/table-occupancy.ts:770-792 | creates the available row at version 1 if and only if the table has none |
| `TableOccupancy.OccupancyStore.UpdateOccupancy` | apps/api/src/lib/table-occupancy.ts:325-360 | the guarded update succeeds if and only if the version matches |
| `TableOccupancy.OccupancyStore.HoldTable` | apps/api/src/lib/table-occupancy.ts:309-396 | holds if and only if the table is seen available at the expected version and still has it; which refusal is answered when; every field of the new row and the event; also when its reads are stale |
| `TableOccupancy.OccupancyStore.SeatTable` | apps/api/src/lib/table-occupancy.ts:416-530 | seats if and only if the table is seen unoccupied at the expected version, still has it, and there are guests; every field of the row, session and event; a failed guard leaves no session behind |
| `TableOccupancy.OccupancyStore.ReleaseTable` | apps/api/src/lib/table-occupancy.ts:536-642 | releases if and only if the table is seen occupied at the expected version and still has it; clears the row, closes the session it read and no other |
| `TableOccupancyRuns.OperationKeepsConsistent` | apps/api/src/lib/table-occupancy.ts:309-642 | every accepted operation keeps rows, sessions, log chain and session events in agreement |
| `TableOccupancyRuns.CommitIsAtomic` | apps/api/src/lib/table-occupancy.ts:325-360 | version guard and row lock make a commit equal to the atomic operation at commit time |
| `TableOccupancyRuns.LogDeterminesState` | apps/api/src/lib/table-occupancy.ts:731-760 | in every reachable state the log is an unbroken chain, the version is one plus its length, and folding it gives the current row |
| `TableOccupancyRuns.LoggedTransitionsAreLegal` | apps/api/src/lib/table-occupancy.ts:309-642 | in every reachable log a reservation starts from available, an opening from available or reserved, and a closing from occupied |
| `TableOccupancyRuns.SessionsExclusive` | apps/api/src/lib/table-occupancy.ts:432-605 | occupied if and only if session, occupied_at and guest_count are set; that session is the table's only active one; each session opens once and closes at most once |
| `TableOccupancyRuns.OneCommitPerVersion` | apps/api/src/lib/table-occupancy.ts:325-360 | over any interleaving at most one operation per expected version of a table commits |
| `Calendar.NextCivilDay` | apps/api/src/lib/numbering.ts:67-74 | the civil date of the day after: the next date, the first of the next month, or 1 January, with the Gregorian leap years |
| `Calendar.GetISOWeekCorrectIff` | apps/api/src/lib/numbering.ts:129-136 | the computed week is the one of section 2.2.10 of ISO 8601:2004, between 1 and 53, if and only if no two-digit year is involved |
| `Calendar.YearFiftyIsMisread` | apps/api/src/lib/numbering.ts:129-136 | a concrete date in the year 50 that gets a wrong week |
| `Calendar.IsoWeekIsUnique` | apps/api/src/lib/numbering.ts:129-136 | a day lies in exactly one ISO week, so the reference definition determines the result |
| `Calendar.SameWeekIffSameSeenMonday` | apps/api/src/lib/numbering.ts:129-136 | for all dates: the same year and week if and only if the Date constructor puts both under the same Monday |
| `Calendar.SameWeekIffSameMonday` | apps/api/src/lib/numbering.ts:129-136 | from the year 100 on, two dates get the same year and week if and only if they share their Monday |
| `Calendar.SameDayIff` | apps/api/src/lib/numbering.ts:141-145 | year, month and date together identify the day |
| `NumberPattern.ChainIsSimultaneous` | apps/api/src/lib/numbering.ts:80-104 | the chain of global replacements equals one simultaneous substitution |
| `NumberPattern.ExpandIsInjective` | apps/api/src/lib/numbering.ts:76-104 | equal expansions have equal sequence values and agree on every date part, even past the pad width |
| `NumberPattern.PlaceholderTexts` | apps/api/src/lib/numbering.ts:67-104 | the text of all eleven placeholders: the year, its last two digits, the month 01 to 12, the day, and the sequence in at least 1 to 6 digits without further zeros in front |
| `Numbering.NeedsResetIff` | apps/api/src/lib/numbering.ts:147-179 | a reset fires if and only if the two dates lie in different periods; for WEEKLY, from the year 100 on, under different Mondays |
| `Numbering.WeeklyResetIff` | apps/api/src/lib/numbering.ts:168-172 | for all dates, a WEEKLY reset fires if and only if the Date constructor puts the two under different Mondays |
| `Numbering.NeedsResetByPeriod` | apps/api/src/lib/numbering.ts:147-179 | a reset fires if and only if year, year and month, Monday or day differ, for the four periods, and never for NEVER or without a last reset |
| `Numbering.PeriodKeyMonotone` | apps/api/src/lib/numbering.ts:147-179 | periods are ordered like dates |
| `Numbering.ChosenTemplate` | apps/api/src/lib/numbering.ts:192-204 | the chosen row is active, of the company and document type, and the outlet's own if and only if the outlet has one; none is chosen if and only if there is none |
| `Numbering.GeneratedNumber` | apps/api/src/lib/numbering.ts:190-234 | one generation: each refusal if and only if its cause, the rendered value, the new counter and reset date, and every other row unchanged |
| `Numbering.SequenceAtEnd` | apps/api/src/lib/numbering.ts:106-116 | all the digits before optional white space at the end are read as one number, below the point where a double overflows |
| `Numbering.NoSequenceAtEnd` | apps/api/src/lib/numbering.ts:106-110 | no sequence is read from a number that does not end in a digit |
| `Numbering.PrintedSequenceIsRead` | apps/api/src/lib/numbering.ts:76-78 | a printed sequence, padded or not, is read back from the end of a number |
| `Numbering.ReservedNumber` | apps/api/src/lib/numbering.ts:249-296 | one reservation: each refusal if and only if its cause; the counter goes up to the requested sequence, never down, and nothing else changes |
| `Numbering.NumberingStore.AllocateValue` | apps/api/src/lib/numbering.ts:190-230 | one allocation transaction: lock, reset or increment, write back, render |
| `Numbering.NumberingStore.GenerateDocumentNumber` | apps/api/src/lib/numbering.ts:181-247 | retries up to the limit; the result and the row are those of one fault-free attempt, or nothing changes |
| `Numbering.NumberingStore.ReserveDocumentNumber` | apps/api/src/lib/numbering.ts:249-296 | refuses a taken number, otherwise raises the counter to its trailing sequence and never lowers it |
| `Numbering.NumberingStore.GetNextDocumentNumber` | apps/api/src/lib/numbering.ts:298-309 | a non-blank request is reserved trimmed; anything else is generated, or nothing changes when every attempt fails |
| `NumberingRuns.EveryAnswerIsIssued` | apps/api/src/lib/numbering.ts:181-247 | the numbers that the results below speak of are exactly the answers of successful generations, in order |
| `NumberingRuns.NumbersAreUnique` | apps/api/src/lib/numbering.ts:181-296 | all numbers generated from a template are pairwise distinct across resets and reservations, on a clock that never runs backwards; within one century unless the template never resets |
| `NumberingRuns.CoveredPeriodsAgree` | apps/api/src/lib/numbering.ts:67-74 | numbers that show the same date parts come from the same reset period |
| `NumberingRuns.GeneratedExceedsEarlier` | apps/api/src/lib/numbering.ts:206-230 | until the next reset each generated sequence exceeds every earlier generated or reserved one |
| `NumberingRuns.DefaultsAreCovered` | apps/api/src/lib/numbering.ts:311-321 | every default pattern shows its sequence and its reset period |
| `NumberingRuns.MonthlyNumber` | apps/api/src/lib/numbering.ts:311-321 | a number of a monthly default template, from left to right |
| `NumberingRuns.FirstInvoiceOfMarch2026` | apps/api/src/lib/numbering.ts:67-104 | the first invoice of March 2026 is INV/2603/0001 |
| `NumberingRuns.DefaultNumbersAreUnique` | apps/api/src/lib/numbering.ts:311-321 | numbers generated from a default template never repeat |
| `NumberingRuns.NullResetNeverFires` | apps/api/src/lib/numbering.ts:147-149 | a template with a null reset date never resets |
| `NumberingRuns.SeededTemplatesCountUp` | apps/api/src/lib/numbering.ts:323-351 | a row seeded from a default template never resets: its sequence only grows and its numbers never repeat, in any century |
| `CsvText.ParseDelimitedLine` | apps/api/src/lib/accounting-import.ts:105-134 | the loop returns the fields of the scanner specification |
| `CsvText.LineRoundTrip` | apps/api/src/lib/accounting-import.ts:105-134 | fields quoted as in section 2 of RFC 4180 (rules 5 to 7), joined by any delimiter, are read back unchanged |
| `CsvText.LineReadsTrimmed` | apps/api/src/lib/accounting-import.ts:105-134 | fields with white space around them are read back without it, and otherwise unchanged |
| `CsvText.KeepLinesAround` | apps/api/src/lib/accounting-import.ts:137-140 | every line that is not blank is kept, cut of the white space at its end, and every blank one is dropped, wherever they stand |
| `CsvText.CutLineRoundTripIff` | apps/api/src/lib/accounting-import.ts:136-151 | after trimEnd the fields survive if and only if the line does not end in a bare empty field after white space |
| `CsvText.SheetRoundTrip` | apps/api/src/lib/accounting-import.ts:136-151 | a written sheet is read back with the same headers and rows, whatever line breaks it uses |
| `Amount.AmountRoundTrip` | apps/api/src/lib/accounting-import.ts:188-225 | a signed amount in cents printed in either style is read back exactly, through any decoration without digits, commas, dots and hyphens |
| `Amount.RupiahRoundTrip` | apps/api/src/lib/accounting-import.ts:188-225 | plain and `Rp`-prefixed amounts are read back exactly |
| `Amount.CommaUnitsRoundTrip` | apps/api/src/lib/accounting-import.ts:188-225 | comma-grouped whole amounts are read back exactly, through any decoration |
| `Amount.DotUnitsRoundTripIff` | apps/api/src/lib/accounting-import.ts:188-225 | dot-grouped whole amounts, through any decoration, are read back exactly if and only if they are below 1000 in magnitude |
| `Amount.CellsWithoutDigits` | apps/api/src/lib/accounting-import.ts:188-225 | a cell without digits, such as a blank one, is zero, except that a comma, dot or hyphen makes it an error |
| `ImportLedger.ImportStore.ValidateTransactions` | apps/api/src/lib/accounting-import.ts:628-634 | accepts if and only if the transaction ids are distinct |
| `ImportLedger.ImportStore.CollectTotals` | apps/api/src/lib/accounting-import.ts:642-658 | accepts if and only if every entry resolves, and collects the totals of every transaction |
| `ImportLedger.ImportStore.ValidateEntries` | apps/api/src/lib/accounting-import.ts:642-664 | accepts if and only if every entry resolves and every transaction has equal debits and credits |
| `ImportLedger.WellFormedFiles` | apps/api/src/lib/accounting-import.ts:616-664 | the files are accepted if and only if none is empty, ids are distinct, types are known, entries resolve and transactions balance |
| `ImportLedger.ImportStore.ValidateFiles` | apps/api/src/lib/accounting-import.ts:616-664 | all checks before the first query together |
| `ImportLedger.ImportStore.UpsertAccounts` | apps/api/src/lib/accounting-import.ts:356-396 | known codes keep their identifier, new codes get the next ones |
| `ImportLedger.ImportStore.InsertJournalBatches` | apps/api/src/lib/accounting-import.ts:438-476 | succeeds if and only if no document occurs twice or was posted before, and then stores one batch per transaction |
| `ImportLedger.ImportStore.BuildLines` | apps/api/src/lib/accounting-import.ts:490-515 | one journal line per entry, complete if and only if every batch and account is known |
| `ImportLedger.ImportStore.InsertJournalLines` | apps/api/src/lib/accounting-import.ts:517-532 | inserting in chunks appends exactly the given lines, and fails if and only if one violates the CHECK constraint |
| `ImportLedger.ImportStore.AggregateByAccount` | apps/api/src/lib/accounting-import.ts:544-562 | the aggregates are the totals of the postings, account by account, each account once; unknown accounts are skipped |
| `ImportLedger.ImportStore.UpdateCurrentBalances` | apps/api/src/lib/accounting-import.ts:534-598 | upserts one row for each touched account and leaves every other row alone |
| `ImportLedger.ImportStore.ImportInTransaction` | apps/api/src/lib/accounting-import.ts:700-763 | all tables change together or none does; an import overtaken since its check is refused |
| `ImportLedger.ImportStore.ImportAccountingCsv` | apps/api/src/lib/accounting-import.ts:609-763 | which reply is given when: a success means that the date of every transaction lies in an open period; the stored import, batches, accounts and every journal line in terms of the files; any other reply leaves the tables unchanged |
| `ImportDrift.SecondImportBreaksBalance` | apps/api/src/lib/accounting-import.ts:592-596 | two concrete imports from empty tables after which the balance column is wrong |
| `ImportRuns.BalancesRefineJournal` | apps/api/src/lib/accounting-import.ts:534-598 | over every run the balance table has a row for exactly the accounts with lines, and its totals are theirs |
| `ImportRuns.AccountsKeepTheirRows` | apps/api/src/lib/accounting-import.ts:356-396 | an account code keeps its identifier over every run and shares it with no other code |
| `ImportRuns.EveryBatchBalances` | apps/api/src/lib/accounting-import.ts:642-664 | over every run each imported batch has equal debits and credits |
| `ImportRuns.TrialBalanceIsZero` | apps/api/src/lib/accounting-import.ts:534-598 | over every run the debit totals of all balance rows add up to their credit totals |
| `ImportRuns.ReimportAddsNothing` | apps/api/src/lib/accounting-import.ts:671-698 | importing the same files again, after any other calls, answers with the first import and changes nothing |
| `ImportRuns.TransactionsImportedOnce` | apps/api/src/lib/accounting-import.ts:448-460 | no transaction of a company is imported twice, even from different files |
| `ImportRuns.EveryBatchWasOpen` | apps/api/src/lib/accounting-import.ts:666-670 | over every run each stored batch belongs to a transaction of a successful import whose date was open in that call |
| `ImportRuns.JournalHoldsReportedLines` | apps/api/src/lib/accounting-import.ts:517-532 | the journal holds exactly as many lines as the replies report |
| `ImportRuns.BalanceColumnCorrectIff` | apps/api/src/lib/accounting-import.ts:592-596 | the balance column is correct after an import if and only if the account is new or its amounts in the import cancel, and otherwise by how much it is off |
| `ImportConcurrency.CommitIsUndisturbed` | apps/api/src/lib/accounting-import.ts:671-763 | a transaction that commits after any number of other imports does what an undisturbed import would |
| `ImportConcurrency.InterleavingsKeepInv` | apps/api/src/lib/accounting-import.ts:671-763 | the balance table, batch and journal invariants hold in every state of every interleaving of checks and transactions |
| `ImportConcurrency.OneCommitPerImport` | packages/db/migrations/0020_data_imports.sql:24 | over every interleaving at most one import per company and file hash commits, and at most one containing a given transaction |
| `ImportConcurrency.EveryCommittedBatchWasOpen` | apps/api/src/lib/accounting-import.ts:666-670 | the same over every interleaving of checks and transactions |
| `ResetThrottle.ThrottleStore.CheckPasswordResetAllowed` | apps/api/src/lib/password-reset-throttle.ts:57-100 | allows if and only if every key with a window begun in the last hour has fewer than 5 (e-mail and address) or 10 (address) attempts, and names the wait for the first that has not, in seconds rounded up |
| `ResetThrottle.ThrottleStore.RecordPasswordResetAttempt` | apps/api/src/lib/password-reset-throttle.ts:102-143 | counts every key of the list in turn, opening a new window exactly when the old one is over |
| `ResetThrottle.ThrottleStore.Request` | apps/api/src/lib/password-reset-throttle.ts:57-143 | an allowed request counts both its keys once, opening a new window exactly when the old one is over, and touches no other; a refused one changes nothing |
| `ResetThrottle.ChecksAgreeIff` | apps/api/src/lib/password-reset-throttle.ts:65-86 | check and record agree whether a window is over except in the second in which its hour ends, past its first instant |
| `ResetThrottle.RecordedBeyondLimitIff` | apps/api/src/lib/password-reset-throttle.ts:118-142 | an allowed attempt exceeds the limit if and only if the limit was used up and it falls into that second |
| `ResetThrottle.RetryAfterSufficesIff` | apps/api/src/lib/password-reset-throttle.ts:91-96 | waiting the announced seconds ends the window if and only if the refusal did not fall on a whole second, and nothing shorter does |
| `ResetThrottle.WindowExcessIsExact` | apps/api/src/lib/password-reset-throttle.ts:57-143 | over every run a window exceeds its limit by exactly the attempts recorded in its last second after the limit was used up |
| `ResetThrottle.LimitHoldsIff` | apps/api/src/lib/password-reset-throttle.ts:57-143 | over every run a key's limit holds in every window if and only if no attempt is recorded in the last second of a used-up window |
| `ResetThrottle.HourHoldsTwiceTheLimit` | apps/api/src/lib/password-reset-throttle.ts:57-143 | under the same condition no closed hour holds more than twice the limit |
| `ResetThrottle.LastSecondIsUnlimited` | apps/api/src/lib/password-reset-throttle.ts:65-142 | for every n a concrete run of one address with n recorded attempts at a single instant |
| `EmailOutbox.OutboxStore.QueueEmail` | apps/api/src/lib/email-outbox.ts:10-33 | appends one pending row without attempts |
| `EmailOutbox.OutboxStore.SendOne` | apps/api/src/lib/email-outbox.ts:64-104 | one message: SENT, retry after a backoff that doubles, or FAILED at the maximum, field by field; an accepted message whose SENT update fails is treated as refused |
| `EmailOutbox.OutboxStore.ProcessPendingEmails` | apps/api/src/lib/email-outbox.ts:35-107 | handles each claimed row once and no other; processed is sent plus failed |
| `EmailOutbox.BatchIsOldestFirst` | apps/api/src/lib/email-outbox.ts:42-58 | a row is claimed if and only if it is due and fewer than 50 due rows are older, and handled if and only if it is then SENDING and fewer than 50 such rows are older |
| `EmailOutbox.BackoffDoubles` | apps/api/src/lib/email-outbox.ts:82-101 | the first retry waits for the configured backoff and each further one twice as long as the one before |
| `EmailOutbox.StatusesAreEarned` | apps/api/src/lib/email-outbox.ts:77-104 | over every run, with workers dying anywhere: FAILED if and only if all attempts are used, SENT if and only if exactly one message was accepted and written as sent |
| `EmailOutbox.AcceptancesAreAccounted` | apps/api/src/lib/email-outbox.ts:77-104 | the mailer accepts an e-mail once if it is SENT and never otherwise, plus exactly the acceptances that could not be written |
| `EmailOutbox.AcceptedYetFailed` | apps/api/src/lib/email-outbox.ts:77-104 | a concrete run in which an accepted e-mail ends up FAILED |
| `EmailOutbox.SendsAreBounded` | apps/api/src/lib/email-outbox.ts:77-104 | an e-mail is sent at most the maximum number of times, plus the messages whose result was lost |
| `EmailOutbox.WorkUsesAttempts` | apps/api/src/lib/email-outbox.ts:35-107 | each call lowers the sum of remaining attempts by at least the number of rows it processes |
| `EmailOutbox.BackoffIsRespected` | apps/api/src/lib/email-outbox.ts:82-101 | after a failure the e-mail is next handled no earlier than the backoff, which doubles with every attempt, whatever happens in between |
| `EmailOutbox.TotalWorkIsBounded` | apps/api/src/lib/email-outbox.ts:35-107 | all calls of a run process at most maximum attempts times queued e-mails |
| `EmailOutbox.WorkFoundIff` | apps/api/src/lib/email-outbox.ts:42-58 | a call finds work if and only if a row is SENDING or a pending row is due |
| `EmailOutbox.NothingLeftSending` | apps/api/src/lib/email-outbox.ts:42-58 | an uninterrupted call fetches everything it claimed and leaves no row SENDING |
| `StaticPages.PageStore.GetCachedPage` | apps/api/src/lib/static-pages.ts:65-77 | serves an entry of at most 600000 ms and deletes an older one |
| `StaticPages.PageStore.InvalidateStaticPageCache` | apps/api/src/lib/static-pages.ts:83-90 | drops one slug, or everything without a slug |
| `StaticPages.PageStore.GetPublishedStaticPage` | apps/api/src/lib/static-pages.ts:92-126 | nothing for a malformed slug, a live entry from the cache, otherwise the rendering of a published row, which is stored; none if and only if there is none |
| `StaticPages.PageStore.CreateStaticPage` | apps/api/src/lib/static-pages-admin.ts:184-231 | refuses malformed and taken slugs, if and only if so, and otherwise appends the row with its trimmed fields |
| `StaticPages.PageStore.UpdateStaticPage` | apps/api/src/lib/static-pages-admin.ts:233-317 | refusals, the no-change return, the new row and the slugs it invalidates |
| `StaticPages.UpdateMeans` | apps/api/src/lib/static-pages-admin.ts:233-317 | each refusal if and only if its cause; every field of the updated row; no change without a difference; neither the old nor the new slug stays cached |
| `StaticPages.PageStore.PublishStaticPage` | apps/api/src/lib/static-pages-admin.ts:319-360 | missing pages are refused; a draft becomes PUBLISHED now, a published page stays as it is, and its slug leaves the cache |
| `StaticPages.PageStore.UnpublishStaticPage` | apps/api/src/lib/static-pages-admin.ts:362-402 | missing pages are refused; otherwise the page becomes a DRAFT without publication date, and its slug leaves the cache |
| `StaticPages.WritersKeepCoherence` | apps/api/src/lib/static-pages-admin.ts:184-402 | every writer leaves only cache entries that equal the rendering of the published row |
| `StaticPages.ReadsIgnoreTheCache` | apps/api/src/lib/static-pages.ts:92-126 | over every run of operations a cached read equals an uncached one |
| `StaticPages.SlugsStayUnique` | apps/api/src/lib/static-pages-admin.ts:133-148 | no two pages ever share a slug |
| `StaticPages.StalenessIsBounded` | apps/api/src/lib/static-pages.ts:65-126 | when readers, commits and invalidations interleave freely, a served page was the table's answer no longer ago than the entry lifetime plus the reader's delay |
| `SprintKeys.HeaderIff` | scripts/clean-sprint-status.ts:153-156 | a line is a header of an epic if and only if it reads white space, `#`, white space, `Epic`, white space, the number and a colon |
| `SprintKeys.KeyIff` | scripts/clean-sprint-status.ts:176-180 | the key of a line is the longest text without white space between leading white space and a colon that something follows |
| `SprintKeys.VerdictIff` | scripts/clean-sprint-status.ts:83-146 | a key is left alone if and only if it is a canonical key of the epic, renamed to a text if and only if the epic fits, there is no dot and that text is its canonical spelling, and removed if and only if neither is possible |
| `SprintStatus.FindSections` | scripts/clean-sprint-status.ts:148-171 | the sections cover exactly the lines that one pass over the file scans |
| `SprintStatus.ScanEpicSection` | scripts/clean-sprint-status.ts:173-189 | the findings of one section, with their line numbers |
| `SprintStatus.ScanFile` | scripts/clean-sprint-status.ts:238-262 | scanning section by section finds what one pass over the file finds |
| `SprintStatus.RepairableIff` | scripts/clean-sprint-status.ts:148-189 | the scan renames a line if and only if it is a story line in scope, under the nearest header above it, whose key belongs to the epic and can be spelled canonically |
| `SprintStatus.LeftAloneIff` | scripts/clean-sprint-status.ts:148-189 | the scan leaves a line alone if and only if it is no story line in scope or has a canonical key of its epic |
| `SprintStatus.ReplacementIsAccepted` | scripts/clean-sprint-status.ts:94-146 | the canonical form chosen for a malformed key is itself accepted |
| `SprintStatus.RenameChangesKey` | scripts/clean-sprint-status.ts:220-223 | after a rename the line's longest key is exactly the replacement, and nothing else of the line has changed |
| `SprintStatus.HeaderHasNoKey` | scripts/clean-sprint-status.ts:153-180 | an epic header is never taken for a story line |
| `SprintStatus.SortIsDescending` | scripts/clean-sprint-status.ts:197-197 | the sort orders any findings by descending line and loses none |
| `SprintStatus.SortReversesAscending` | scripts/clean-sprint-status.ts:197-197 | findings in ascending order are reversed |
| `SprintStatus.ApplyFixes` | scripts/clean-sprint-status.ts:195-236 | for findings in any order, the splicing loop computes the bottom-up repair with its counts |
| `SprintStatus.BottomUp` | scripts/clean-sprint-status.ts:205-233 | repairs leave the lines above alone, so every pending line number still names the scanned line |
| `SprintStatus.FixReachesFixpoint` | scripts/clean-sprint-status.ts:195-236 | a second scan finds nothing, every finding was renamed or removed, and only removals shorten the file |
| `SprintStatus.FixKeepsOtherLines` | scripts/clean-sprint-status.ts:195-236 | headers survive unchanged and all other lines without findings survive in order |
| `SprintStatus.FixCleans` | scripts/clean-sprint-status.ts:195-236 | canonical story lines and lines that are no story lines stay as they are; a story line that can be spelled canonically stays under that key, unless the file has the key or a line further down takes it; no other line is left |
| `SprintStatus.FixKeepsKeysDistinct` | scripts/clean-sprint-status.ts:195-233 | if no two story lines share a key, no two do after the repair |
| `SprintStatus.CleanFile` | scripts/clean-sprint-status.ts:238-290 | scan and repair together: a clean second scan; headers, canonical lines and other lines kept; repairable lines kept under their canonical keys; distinct keys kept distinct |
| `Barcodes.ValidateEAN13` | apps/api/src/lib/item-barcodes.ts:62-72 | accepts if and only if 13 digits have a right-to-left weighted sum divisible by ten (section 7.9 of the GS1 General Specifications) |
| `Barcodes.ValidateUPCA` | apps/api/src/lib/item-barcodes.ts:77-87 | the same for 12 digits |
| `Barcodes.UpcIsEanWithZero` | apps/api/src/lib/item-barcodes.ts:62-87 | a code is valid UPC-A if and only if it is valid EAN-13 with a leading zero |
| `Barcodes.OneWrongDigitIsFound` | apps/api/src/lib/item-barcodes.ts:62-87 | any single-digit change of a valid code is rejected |
| `Barcodes.SwapIsFoundIff` | apps/api/src/lib/item-barcodes.ts:62-87 | an adjacent swap goes unnoticed if and only if the digits are equal or differ by five |
| `Barcodes.ThirteenWeights` | apps/api/src/lib/item-barcodes.ts:62-72 | 13 digits fit if and only if the digits in odd places plus three times those in even places are divisible by ten |
| `Barcodes.KnownCodes` | apps/api/src/lib/item-barcodes.ts:62-87 | 4006381333931 is a valid EAN-13 code and 036000291452 a valid UPC-A code |
| `Barcodes.ValidateBarcode` | apps/api/src/lib/item-barcodes.ts:101-137 | empty, given and detected types, with the check of each |
| `Barcodes.DetectionIff` | apps/api/src/lib/item-barcodes.ts:38-57 | which trimmed texts are taken for EAN-13, UPC-A and Code 128 |
| `Barcodes.DetectionAcceptsIff` | apps/api/src/lib/item-barcodes.ts:38-57 | a barcode of detected type is accepted if and only if it is at most 100 long and, when it has 12 or 13 digits only, its check digit fits |

## Left out

- Routes, SQL, connection pools, permissions, audit rows, metrics and retry delays: only the row changes are modelled.
- Rendering and sanitising of Markdown, hashing of throttle keys and files: unknown or injective functions.
- Other writers of fiscal years (`updateFiscalYear`, the older `closeFiscalYear`): they can change a year's status outside the close protocol.
- The preview of closing entries is any preview; only `ApproveSucceedsIff` ties it to the generated entry.
- The snapshot service: only whether it stored a snapshot.
- The statements inside one import transaction: a transaction is one step, as unique keys and row locks make overlapping ones wait.
- Floating-point rounding: currency amounts are exact reals or whole cents, so the half-cent tolerance of the import means equality.
- Account names, types and parents: a group code ending in `00` becomes its own parent, so no acyclicity is claimed; `as_of_date` and file names are not stored.
- How the table-occupancy code reads the row count of an UPDATE (through an untyped field): its version checks are modelled as tests of that count.
- Session operations other than hold, seat and release, the table board, and `reserved_until`, which seat and release do not clear.
- Daylight saving, time zones and dates outside four-digit years for number uniqueness.
- Uniqueness of manually reserved numbers against numbers generated after a reset: the code does not ensure it.
- Retries of the allocator on anything but injected faults, and the exact wording of errors.
- Line breaks inside CSV quotes: the code splits lines before it looks at quotes.
- Throttle rows with a null `last_failed_at`, which this code never writes; requests checked before earlier ones are recorded; trimming and lower-casing of e-mail and address.
- Concurrent outbox workers (the second query fetches any SENDING row) and `retryFailedEmail` on rows that are not FAILED.
- Static pages: metadata parsing, actors and the audit log. Their identifier is the position of the row, as rows are never deleted.
- Sprint-status fixer: reasons and console output, splitting and joining the text, and distinct keys in a file that repeats one (removing a repeated key frees it for a rename). Characters are single UTF-16 units, and lower-casing is exact for every key that can be canonical.
- Barcode uniqueness and images.
