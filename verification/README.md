# The payment ledger, its two protocols and the figures derived from it

A Dafny model of the part of the system that turns bank movements into membership dues
and budget figures. `dafny verify dfyconfig.toml` checks everything.

**The ledger** (`Ledger`, `LedgerInvariant`, `LedgerMachine`, `LedgerExact`, `LedgerCounts`,
`LedgerCredit`, `LedgerEffects`, `LedgerSolo`, `LedgerRefine`, `LedgerOverlap`, `Reapply`,
`RunOnce`, `Processing`). The tables are one value, `Ledger.Tables`, and every database
transaction is one function from tables to tables: processing a raw transaction, one
write of a re-apply, assigning and unassigning by hand, creating, editing and deleting a
rule, a movement arriving. `Processing.Database` performs the same operations statement
by statement on mutable tables, with rollback, and each method is proved to be the
function of the same name. `LedgerMachine` interleaves any number of processing runs,
re-applies and manual edits, one database transaction per action, and may crash between any
two of them. A rule's decision for a
row, with its member lookup, and the write of that decision are two actions, and a re-apply
compares with the outcomes it listed at its start, so both may be outdated when they are
written. A failing lookup, or the statement at which a write fails, is an input
(`Categorization.Fault`), as are all identifiers, own accounts, members and dates.

**Categorisation** (`Categorization`, `Matching`, `Symbols`, `Calendar`): the ordered rule walk,
what each kind of rule accepts in terms of the transaction's own fields, the variable symbol's
canonical form, and Go's `AddDate`.

**The Fio cursor** (`FioSync`, `FioSafety`, `FioLoss`, `FioOrdinary`, `FioGap`, `FioOverlap`,
`FioJob`, `FioOutcome`, `FioReport`, `FioVerdict`). The
bank keeps a cursor and moves it when it answers; the insert is all-or-nothing; a failed insert
sends the cursor back to the largest id held. A sync or a backfill is a job that fetches, reads
the largest id, inserts and finishes in separate actions, so arrivals, backfills and other syncs
may fall between any two of its steps. A job may end early: by a refused or unreadable answer, a
failing query, a panic, or the death of the process. A seed position counts as the floor below
which history is given up on purpose. `FioJob.Desk` performs a sync and a backfill statement by
statement; its parameter `elsewhere` is what everybody else did before each statement.
`FioJob.PlayedIsExecuted` says which interleaving that is, namely the job's own steps up to its
end, each after the steps of the others, and `FioOutcome` applies the theorems to it.

**Waivers** (`Waivers`, `WaiverMachine`, `WaiverDesk`). A walk over the months to write off
checks, writes and reads each month in separate statements, outside any transaction, so payments
may land or vanish in between. `WaiverDesk.Desk` takes the same `elsewhere` parameter.

**The whole** (`Association`, `References`, `WaiverLedger`) lets the ledger, the waiver walks,
category administration and the budget editor act on the same tables in any order.

**Derived reports** (`Arrears`, `Owed`, `PaymentHistory`, `BudgetLines`, `BudgetStore`, `BudgetReport`,
`ClosedYears`, `Categories`): missing payments by month, by year and in total; a member's
history; budget lines and who owns a category; budget against actual; the category tree and
the summary rolled up over it. Joins and groupings are folds over row ids; where a query leaves
an order open, the statements hold for every order.

What turned out to need a condition:

- A stale re-apply write keeps the ledger sound exactly when the listed member differs from
  the new one or the row already has the new one (`LedgerInvariant.StaleWriteExact`, over whole
  histories with any number of re-applies `LedgerExact.BreaksExactly`). With re-applies one at
  a time this always holds; two overlapping ones break it (`LedgerOverlap.OverlapLosesTheMember`).
- Re-applying a rule agrees with re-running the chain exactly on the rows that rule had not
  decided before, or still decides (`Reapply.ReapplyAgreesExact`). Adding, enabling or
  moving a rule earlier always qualifies; an edit that stops matching does not.
- Re-applying beside runs and assignments still ends with every automatic row as the new chain
  decides it (`LedgerRefine.ReapplyRefinesInterleaved`), if no run that loaded the older chain
  is still at work: such a run stores rows the listing has missed
  (`LedgerOverlap.OldRunEscapes`).
- `writeOutcome` answers "changed" together with a failing commit's error
  (internal/processing/processing.go:430), so such a row counts as changed and as failed though
  it is rolled back: Changed exceeds the rows rewritten by exactly the candidates whose commit
  failed (`Reapply.CountersExact`).
- A step of the sync protocol loses nothing exactly when it is harmless in the state it strikes
  (`FioLoss.StepExact`, over whole histories `FioLoss.LosesExactly`, however many syncs overlap).
  For a failed insert whose rewind works, this means that everything up to the id the rewind
  goes to is in our table or in the hands of another sync. With one sync per account, what
  counts is whether our table has a hole at the moment that id is read
  (`FioLoss.MaxReadDecides`), and ordinary operation never makes one. The comment at
  internal/syncjob/fio.go:117-125 calls backfills safe beside the daily sync; that holds for
  duplicates, but a backfill of a later period than the cursor's makes such a hole, whether it
  lands before the sync (`FioGap.GapLosesMovement`) or between its fetch and its reading of the
  largest id (`FioGap.BackfillInsideSyncLosesMovement`). So does a second sync of the same
  account (`FioOverlap.TwoSyncsLoseMovement`).
- A month that gains a waiver was uncovered when its walk checked it. It is covered when the
  waiver is written exactly when it was paid in between on a row and month free at that time,
  and that row was not cleared since (`WaiverMachine.NewWaiverWasChecked`; in terms of runs,
  re-applies and assignments, `WaiverLedger.WaivedWhilePaid`). It does happen:
  `WaiverMachine.PaidMonthIsWaived`.
- The default covered month is the previous calendar month exactly when that month has the
  transaction's day number (`Calendar.DefaultCoveredMonthExact`). The comment at
  internal/processing/processing.go:202-203 promises the transaction's own month, the one at
  416-417 the month before; the code picks March for the 30th of April and also for the 31st
  of March. The model follows the code.
- `monthFromIndex` inverts `monthIndex` exactly from year 0 on, and for every January
  (`Waivers.MonthFromIndexExact`); the handler only passes years from 2000.
- Unassigning keeps the id of the rule that once decided the row, so a row in its fallback
  category may still name a rule.

## Model

| member | source | states |
|---|---|---|
| Calendar.AddMonthsNormalises | internal/processing/processing.go:241 | shifting by months gives the one valid date that lies day - 1 days after the first of the shifted month, against a day count built from the Gregorian leap rule |
| Calendar.DefaultCoveredMonthExact | internal/processing/processing.go:236-246 | a payment covers the previous calendar month exactly when that month has the payment's day number, otherwise its own month |
| Calendar.NotAfterIsDayOrder | internal/db/queries.sql.go:665-672 | comparing dates is comparing their day numbers |
| Symbols.NormalizeIsCanonical | internal/processing/processing.go:256-270 | two digit strings normalise alike exactly when they denote the same number |
| Symbols.NormalizeIsDecimal | internal/processing/processing.go:264-270 | the normal form is the decimal rendering of the number |
| Symbols.NormalizeIdempotent | internal/processing/processing.go:264-270 | normalising twice is normalising once, for every string |
| Symbols.PaddedMemberNumberFindsDefaultIdentifier | internal/syncjob/orca.go:96-103 | however a member number is zero-padded, it normalises to the identifier the Orca sync stored for that member |
| Categorization.FindIdentifier | internal/db/queries.sql.go:665-672 | finds a claiming identifier exactly when there is one, and one with the latest valid_from |
| Categorization.Categorize | internal/processing/processing.go:108-121 | the loop returns the verdict of the rule walk, a failing lookup included |
| Matching.FirstTakerDecides | internal/processing/processing.go:108-200 | the verdict is that of the first listed rule whose every set condition holds of the transaction's own fields (or whose account or member claim does), with that rule's category and the claiming member; other income or other expense when there is none |
| Matching.OnlyRule | internal/processing/processing.go:123-200 | a rule alone in the chain decides exactly the transactions it accepts |
| Matching.LookupFails | internal/processing/processing.go:134-150 | when lookups fail, the walk fails exactly if it comes to a member rule with a symbol to look up before any rule accepts, and otherwise decides as usual |
| Matching.RuleExact | internal/processing/processing.go:123-158 | what one rule accepts, by its kind: an own account, a member's valid claim with the latest start, or a pattern |
| Matching.ContainsExact | internal/processing/processing.go:196-200 | a text condition holds exactly when the field is some prefix, the part up to letter case, and some suffix |
| Matching.LettersFold | internal/processing/processing.go:196-200 | which letters are the same up to case: the Latin and the Czech alphabet |
| Matching.NormalizeExact | internal/processing/processing.go:256-270 | any two symbols normalise alike exactly when they differ in leading zeroes only |
| Categorization.EnabledInOrder | internal/db/queries.sql.go:2117-2121 | the loaded chain holds exactly the enabled rules, in strictly increasing (priority, id) order |
| Categorization.WalkFindsDecider | internal/processing/processing.go:108-121 | without lookup failures the walk yields the outcome of the least matching rule, or the fallback when none matches |
| Categorization.DeciderIsWalked | internal/processing/processing.go:108-121 | conversely, a least matching rule, or no match at all, fixes the verdict |
| Ledger.UnprocessedExact | internal/db/queries.sql.go:2776-2781 | a run lists exactly the raw transactions without a row, in id order |
| LedgerInvariant.CandidatesExact | internal/db/queries.sql.go:2490-2502 | a re-apply lists exactly the rows not set by hand dated on or after `from`, in id order, with their current outcome |
| LedgerInvariant.ProcessRowKeeps | internal/processing/processing.go:208-255 | processing one transaction, from any earlier snapshot of the rules, keeps the ledger invariant |
| LedgerInvariant.WriteNewKeeps | internal/processing/processing.go:216-254 | storing an outcome decided in an earlier state keeps the ledger invariant |
| LedgerInvariant.CoversExact | internal/handler/transactions.go:514-524 | writing the requested months adds exactly those months for the row and overwrites nothing |
| LedgerInvariant.AssignRowKeeps | internal/handler/transactions.go:478-532 | assigning by hand keeps the ledger invariant |
| LedgerInvariant.AssignStores | internal/handler/transactions.go:440-532 | an accepted assignment stores the requested member and category (membership fee by default) and comment, and covers exactly the months named, the default month if none is, and none for another category or without a member |
| LedgerInvariant.AssignAnswers | internal/handler/transactions.go:388-533 | the answer to every request, by its fields, the known members, categories and rows, and the statement that fails |
| LedgerInvariant.DefaultMonthAgrees | internal/handler/transactions.go:466-476 | storing a match, rewriting a member and assigning without months choose the same month for the same transaction |
| LedgerInvariant.UnassignRowKeeps | internal/handler/transactions.go:550-600 | unassigning keeps the invariant; the row is automatic again, in its fallback category, without member and coverage, and keeps its rule reference |
| LedgerInvariant.UpdateRuleKeeps | internal/handler/rules.go:318-333 | editing a rule keeps the invariant, because a built-in rule keeps its category |
| LedgerInvariant.DeleteRuleKeeps | internal/handler/rules.go:388-400 | deleting a rule, its references cleared, keeps the invariant |
| LedgerEffects.StoreExact | internal/processing/processing.go:216-254 | when a new row goes through, what the row and its month are, and that a failure at any statement leaves everything as it was |
| LedgerEffects.WriteEffectExact | internal/processing/processing.go:366-431 | when a re-apply write goes through, when it fails, and that it reports both exactly when its commit fails |
| LedgerEffects.RewriteExact | internal/processing/processing.go:381-431 | what a re-apply write stores: the outcome on the row, and the default month alone if the member moved |
| LedgerEffects.PassedOver | internal/processing/processing.go:324-341 | a candidate is passed over exactly when the rule that decided it runs before the target |
| LedgerEffects.AbsentTarget | internal/processing/processing.go:324-341 | a target missing from the loaded chain passes nothing over |
| LedgerEffects.ListedExact | internal/db/queries.sql.go:2490-2502 | a row is listed exactly when not set by hand and dated on or after the start, with its current outcome |
| LedgerEffects.UnassignAnswers | internal/handler/transactions.go:550-600 | the answer to every unassignment; anything but success changes nothing |
| LedgerEffects.NewRuleExact | internal/handler/rules.go:161-176 | a new rule is stored as requested exactly with a known category and a condition besides the direction |
| LedgerEffects.EditRuleExact | internal/handler/rules.go:291-345 | an edit replaces a pattern rule under the same conditions; of a built-in rule it changes priority and enabling only |
| LedgerEffects.RemoveRuleExact | internal/handler/rules.go:372-405 | a pattern rule is removed and cleared from the rows, which otherwise stay; built-in rules survive |
| LedgerEffects.ArrivalsExact | internal/db/queries.sql.go:1370-1401 | an arriving movement and refreshed identifiers, accounts, members and categories are taken as they are and touch nothing else |
| LedgerSolo.SoloRun | internal/processing/processing.go:37-60 | a run's single steps, left alone, add up to the run as one call, counters included |
| LedgerSolo.SoloReapply | internal/processing/processing.go:307-353 | the same for a re-apply |
| LedgerInvariant.StaleWriteExact | internal/processing/processing.go:381-431 | a write that goes through keeps the invariant if and only if the listed member differs from the new one or the row already has the new one |
| LedgerInvariant.SameMemberSameOutcome | internal/handler/rules.go:323-333 | because only the one member rule finds members, two outcomes with the same member are the same |
| LedgerInvariant.WriteChangeKeeps | internal/processing/processing.go:381-431 | for a candidate no other re-apply has touched, every write of a decision, old or new, keeps the invariant |
| LedgerMachine.EveryReachableLedgerOk | internal/processing/processing.go:307-353 | with re-applies one at a time, every interleaving of lists, decisions and writes with runs, manual edits, rule edits, syncs, administration and crashes keeps the whole machine invariant, jobs in flight included |
| LedgerMachine.LedgerSafety | internal/processing/processing.go:296-298 | from the seeded database on: one row per raw transaction, coverage credits the row's own member, matched by hand implies set by hand, and an automatic row has exactly its default coverage if it has a member and none otherwise |
| LedgerExact.StepExact | internal/processing/processing.go:381-431 | in a sound ledger, whatever is in flight, an action keeps it sound if and only if it is no re-apply write that goes through although its listing saw the new member and the row has another by now |
| LedgerExact.BreaksExactly | internal/processing/processing.go:307-353 | over every interleaving with any number of re-applies at a time, the ledger is sound at every moment if and only if every re-apply write is harmless where it strikes |
| LedgerExact.EveryHistoryFlows | internal/processing/processing.go:208-255 | however re-applies overlap, each row belongs to one stored transaction and no two to the same, and what is in flight names existing rows and member rules |
| LedgerCounts.CountsAreRows | internal/processing/processing.go:33-60 | over every interleaving, overlapping runs included, the processed counters grow by exactly the rows added unless a crash forgets counts, no transaction gets two rows, and each run accounts for all it listed |
| LedgerCredit.CreditStep | internal/processing/processing.go:410-428 | after any action a month is credited on a row exactly when the action credits it, or it was credited and the action does not clear the row |
| LedgerMachine.HandRowStays | internal/db/queries.sql.go:2947-2956 | no interleaving, overlapping re-applies included, changes a row set by hand or its coverage until it is assigned or unassigned again; only deleting a rule clears its reference |
| LedgerOverlap.OverlapLosesTheMember | internal/processing/processing.go:411-428 | a sound state and two overlapping re-applies that leave a row without member but with that member's coverage |
| LedgerOverlap.OldRunEscapes | internal/processing/processing.go:37-60 | a run that loaded the chain before the rule existed stores a row after the listing, and the row stays as the old chain decided it |
| LedgerRefine.ReapplyRefinesInterleaved | internal/processing/processing.go:307-353 | a re-apply interleaved with runs, assignments and arrivals leaves, once its last candidate is handled, every automatic row from `from` on, old or new, as the whole new chain decides it |
| LedgerRefine.HandledAgrees | internal/processing/processing.go:335-351 | one candidate still as listed, handled without failure, ends as the new chain decides |
| Reapply.ReapplyRowsPointwise | internal/processing/processing.go:335-351 | candidates do not interfere: each row ends as if its candidate were the only one, all others keep content and coverage |
| Reapply.ReapplyLeavesOlderRows | internal/processing/processing.go:286-297 | rows set by hand and rows dated before `from` come out untouched, coverage included |
| Reapply.ReapplyIdempotent | internal/processing/processing.go:298-299 | after a re-apply without failures a second one changes no row, whatever fails in it |
| Reapply.CountersExact | internal/processing/processing.go:335-361 | Changed counts the rows rewritten and those whose commit failed, Failed the failed ones and again those; all but the rewritten rows are as before |
| Reapply.ReapplyAgreesExact | internal/processing/processing.go:301-306 | a row that agreed with the old chain agrees with the new one after the re-apply if and only if the rule had not decided it before, or still decides it |
| Reapply.ReapplyRefinesFullRerun | internal/processing/processing.go:307-353 | after a rule is added, enabled or moved earlier and re-applied without failures, every automatic row from `from` on is as the whole new chain decides it, and earlier rows are untouched |
| RunOnce.RunExact | internal/processing/processing.go:37-60 | one run counts each listed transaction once, adds one row per success, changes no row, and the next run's list is exactly the transactions that failed |
| RunOnce.RunsExactlyOnce | internal/processing/processing.go:33-60 | over any sequence of runs the processed counts add up to the table's growth, no transaction gets two rows, and exactly the transactions that fail in every run are left over |
| RunOnce.FaultFreeRunFinishes | internal/processing/processing.go:37-60 | a run without faults leaves nothing unprocessed, if the categories and members its outcomes refer to exist |
| Processing.Database.CreateProcessedTransaction | internal/db/queries.sql.go:416-422 | inserts one row under the next id, or changes nothing, exactly when the transaction is unknown or has a row, or the category, rule or member is missing |
| Processing.Database.ReapplyCategorization | internal/db/queries.sql.go:2947-2956 | rewrites the automatic outcome of a row not set by hand, reports zero rows for one that is, and touches nothing else |
| Processing.Database.ProcessOne | internal/processing/processing.go:208-255 | row and default coverage are stored together or not at all, as the ledger function says |
| Processing.Database.Run | internal/processing/processing.go:37-60 | tables and both counters after the loop are those of the run function |
| Processing.Database.BuildOrder | internal/processing/processing.go:324-328 | the order map gives each enabled rule its position in the chain and nothing to others |
| Processing.Database.WriteOutcome | internal/processing/processing.go:381-431 | compares with the listed outcome, rewrites the row under the manual guards, and coverage only when the member changed; a failure at any statement rolls both back, and a failing commit is reported as changed and as an error |
| Processing.Database.ReapplyOne | internal/processing/processing.go:336-351 | skips what an earlier rule decided, otherwise applies the target alone; what it reports is the effect of the ledger function |
| Processing.Database.ReapplyRule | internal/processing/processing.go:307-353 | the outcome of the whole call: unknown rule, disabled rule, or tables and counters of the re-apply function |
| Processing.Database.AssignTransaction | internal/handler/transactions.go:388-533 | response and tables of the assign function: every rejection, the default month, replacement of coverage, rollback |
| Processing.Database.UnassignTransaction | internal/handler/transactions.go:550-600 | response and tables of the unassign function |
| FioSync.NewSinceExact | internal/fio/client.go:79-86 | the bank serves exactly the movements past the cursor, the last of them being its latest |
| FioSync.InPeriodExact | internal/fio/client.go:88-95 | a backfill is served exactly the movements of the period, both days included |
| FioSync.ArriveExact | internal/fio/client.go:79-86 | the bank books a movement exactly if its id is positive and above all earlier ones |
| FioSync.ReseedServes | internal/fio/client.go:127-134 | after reseeding the bank serves nothing older than the day, from its last movement before that day on, and what is skipped is given up openly |
| FioSync.InsertAllExact | internal/db/queries.sql.go:1370-1401 | inserting a batch keeps (account, id) unique and adds exactly the missing movements of the batch |
| FioSync.MaxIdExact | internal/db/queries.sql.go:932-936 | the maximum bounds every id of the account, is held if any is, and is 0 if none is |
| FioJob.Desk.FetchNew | internal/fio/client.go:79-86 | returns everything past the cursor and moves the cursor with a non-empty answer |
| FioJob.Desk.FetchPeriod | internal/fio/client.go:88-95 | returns the movements of the period and leaves the cursor |
| FioJob.Desk.InsertTransactions | internal/syncjob/fio.go:293-316 | a batch is inserted whole, with the number of new rows, or leaves no row |
| FioJob.Desk.SyncAccount | internal/syncjob/fio.go:192-291 | whatever others do before each of its statements and wherever it fails, a sync is the sequence of its single steps, and ends where the code returns |
| FioJob.Desk.BackfillAccount | internal/syncjob/fio.go:122-190 | the same for a backfill |
| FioJob.PlayedIsExecuted | internal/syncjob/fio.go:112-121 | a job with others acting between its statements is the interleaving of its own steps, up to its end, each after the others' steps |
| FioSafety.NoDuplicates | internal/syncjob/fio.go:117-121 | over every interleaving of the steps of any number of syncs and backfills, several per account included, whatever fails: each movement is stored at most once, every row is the bank's own, and the runs count what the table grew by unless a job vanished |
| FioSafety.ReportsAddUp | internal/syncjob/fio.go:284-290 | between two moments with nothing under way the inserted counts of the run rows add up to the table's growth |
| FioReport.StatusExact | internal/syncjob/fio.go:192-291 | over every interleaving a run row says failed exactly when one of the run's steps failed (reseeding, answer, largest id, a backfill's insert, a sync's failed insert settled, a panic), success exactly when it ended well, and stays closed |
| FioReport.SuccessStoredAll | internal/syncjob/fio.go:284-290 | a run closed as a success holds every movement the bank served it at its fetch, reports their number, and keeps them whatever comes after |
| FioVerdict.SyncReports | internal/syncjob/fio.go:192-291 | a sync's row in the end, whatever fails and whatever others do in between: its status and fetched count as the attempt and the batch served determine them |
| FioVerdict.BackfillReports | internal/syncjob/fio.go:122-190 | the same for a backfill |
| FioLoss.StepExact | internal/syncjob/fio.go:258-283 | a step from a state without loss ends without loss if and only if it is harmless there |
| FioLoss.LosesExactly | internal/syncjob/fio.go:192-291 | over every interleaving of arrivals and of the steps of any number of syncs and backfills, several syncs of one account included, nothing is ever lost if and only if every step that lets go of a batch is harmless where it strikes |
| FioLoss.NeverLost | internal/syncjob/fio.go:258-263 | if every step is harmless, then whenever no sync of an account holds a batch, no movement above the floor and up to the cursor is missing |
| FioLoss.MaxReadDecides | internal/syncjob/fio.go:264-283 | with one cursor sync per account: without a hole when the largest id is read the rewind is harmless, whatever happens until then; with nothing stored for the account in between, only then |
| FioOrdinary.OrdinaryOperationNeverLoses | internal/syncjob/fio.go:264-283 | with readable answers, working rewinds and backfills that stay below the largest id held, and one cursor sync per account, the no-hole condition maintains itself and nothing is ever lost, in any interleaving |
| FioOutcome.OrdinarySyncNeverLoses | internal/syncjob/fio.go:192-291 | a sync with a readable answer and a working rewind, among ordinary others, loses nothing at any moment, and when it is over, whether it stored its batch, failed to or got none, the table has every movement above the floor and up to the cursor |
| FioGap.GapLosesMovement | internal/syncjob/fio.go:275-283 | with a hole in the table before the sync, a failed insert and a successful rewind lose a movement for good |
| FioGap.BackfillInsideSyncLosesMovement | internal/syncjob/fio.go:117-121 | a backfill between a sync's fetch and its reading of the largest id does the same, although there was no hole at the fetch |
| FioOverlap.TwoSyncsLoseMovement | internal/syncjob/fio.go:264-283 | all steps ordinary but with a second sync of the account storing a later movement before the first reads the largest id, the first one's rewind loses a movement |
| Arrears.YearIsItsTwelveMonths | internal/db/queries.sql.go:2369-2401 | the year's list names a member exactly when one of its twelve monthly lists does |
| Owed.MonthListsOwing | internal/db/queries.sql.go:2246-2267 | a month's list names exactly the members whose fee had started by its last day, had not stopped before its first, for whom the second month after it has begun, and whose month is neither paid nor waived |
| Owed.YearListsOwing | internal/db/queries.sql.go:2369-2401 | a year's list names exactly the members who owe a month of that year in this sense |
| Owed.TotalIsOwed | migrations/20260911000003_payment_waivers.sql:35-64 | total_missed_months is the number of months owed in this sense |
| Arrears.TotalCountsListings | internal/db/queries.sql.go:2285-2287 | total_missed_months is the number of months whose list names the member, so at least one for anyone listed |
| Arrears.LiableMonthsSplit | migrations/20260911000003_payment_waivers.sql:35-64 | the liable months of the window are the disjoint union of the paid, the waived but unpaid and the listed ones, and their number is paid plus waived plus total_missed_months |
| Arrears.TotalMovesByOne | migrations/20260911000003_payment_waivers.sql:35-64 | a change to one month moves the total by that month's listing alone |
| Arrears.PaymentLowersTotal | migrations/20260911000003_payment_waivers.sql:48-53 | a payment for a missing month lowers the total by one, for any other month by nothing |
| Arrears.WaiverLowersTotal | migrations/20260911000003_payment_waivers.sql:54-59 | the same for a waiver |
| Arrears.UnwaivingRestores | internal/handler/waivers.go:246-292 | removing a waiver brings the month back exactly when it is liable and uncovered, and raises the total by exactly that |
| Waivers.MonthFromIndexExact | internal/handler/waivers.go:46-52 | monthFromIndex inverts monthIndex if and only if the year is not negative or the month is January |
| Waivers.WellFormedExact | internal/handler/waivers.go:106-137 | a request is accepted exactly with a reason, months from 2000 to next year, both ends of a range or neither, and its end not before its start |
| Waivers.WalkedMonthsExact | internal/handler/waivers.go:113-146 | the walk covers the one month, or all from start to end |
| Waivers.WaiveExact | internal/handler/waivers.go:146-197 | exactly the uncovered months of the range gain a waiver; existing waivers keep their first reason |
| Waivers.WaiveIdempotent | internal/handler/waivers.go:173-181 | repeating the call, with any reason, changes nothing |
| Waivers.RangePartition | internal/handler/waivers.go:146-197 | waived and skipped months partition the range, each in calendar order without repetition |
| WaiverMachine.NewWaiverWasChecked | internal/handler/waivers.go:146-181 | in any history, a month that gains a waiver was uncovered when its walk checked it, and is covered at the write if and only if in between it was paid on a free row and month and that row was not cleared since |
| WaiverMachine.CoveredWhenLanded | internal/handler/waivers.go:152-160 | an uncovered month is covered after a history exactly when the history pays it on a row and month free at that time and does not clear that row afterwards |
| WaiverMachine.PaidMonthIsWaived | internal/handler/waivers.go:146-181 | a history in which a payment lands between the check and the write, and the covered month gains a waiver |
| WaiverLedger.WaivedWhilePaid | internal/handler/waivers.go:146-181 | the same beside the ledger itself: covered at the write if and only if since the check a run, a re-apply or an assignment credited the month and no re-apply, assignment or unassignment cleared that row |
| WaiverMachine.WritingWasChecked | internal/handler/waivers.go:146-181 | a walk about to write has found that very month uncovered earlier in the history |
| WaiverMachine.WaivedWhenWritten | internal/handler/waivers.go:166-181 | a month stands waived after a history exactly when some walk wrote it and nobody removed the waiver since |
| WaiverMachine.ReasonStays | internal/handler/waivers.go:173-181 | over any history a waiver keeps its first reason until it is removed |
| WaiverDesk.PlayedIsExecuted | internal/handler/waivers.go:146-197 | a walk with others acting between its statements is the history of its own steps, each after the others' |
| WaiverDesk.OwnWaiverWasChecked | internal/handler/waivers.go:146-181 | each month to which a request adds a waiver itself was uncovered at its check, whatever went before and goes on beside, with the exact condition for being covered by then |
| WaiverDesk.Desk.WaiveMonths | internal/handler/waivers.go:146-197 | the walk is the sequence of its single statements whatever others do in between; if nobody acts, waivers and both lists after the walk, or after the statement at which it broke |
| WaiverDesk.Desk.WaivePayment | internal/handler/waivers.go:92-201 | rejections, and the walk with others in between; if nobody acts, exactly when a request is rejected, breaks or is accepted, and what is written in each case |
| WaiverDesk.Desk.UnwaivePayment | internal/handler/waivers.go:258-292 | removes exactly that month's waiver and reports whether there was one |
| PaymentHistory.AppearancesExact | internal/handler/payments.go:154-176 | each transaction of the rows once, ordered by first rows, which hold the transaction and have no earlier one of it |
| PaymentHistory.WritePaymentHistory | internal/handler/payments.go:147-200 | the loops produce the payment entries in that order, each with all its months, then the waived months no payment covers |
| PaymentHistory.HistoryConservesCoverage | internal/handler/payments.go:154-181 | grouping neither loses, adds nor repeats a coverage row |
| PaymentHistory.EachCoverageReportedOnce | internal/db/queries.sql.go:971-980 | over a sound ledger every coverage row of the member is reported exactly once and nothing else is |
| PaymentHistory.WaivedReportedExact | internal/handler/payments.go:183-200 | a month shows as waived exactly when it has a waiver and no payment covers it |
| PaymentHistory.MonthsNewestFirst | internal/handler/payments.go:154-176 | inside an entry months keep the query's order, newest first, none twice |
| BudgetLines.FirstOccurrencesExact | internal/handler/budgets.go:604-616 | de-duplication keeps the set of categories, repeats none and keeps the order of first occurrences |
| BudgetLines.NormalizeCategoryIds | internal/handler/budgets.go:604-616 | the loop rejects a null id and otherwise de-duplicates |
| BudgetLines.SaveExact | internal/handler/budgets.go:681-737 | a save goes through if and only if its line exists, the name is free and its categories are distinct, known and unowned by other lines; it then changes that line and its categories only |
| BudgetLines.SaveAnswers | internal/handler/budgets.go:681-737 | which constraint refuses a save |
| BudgetLines.DeleteExact | internal/handler/budgets.go:882-906 | a deleted line takes its own mappings along, a deleted year its lines and theirs, and nothing else goes |
| BudgetLines.CreateExact | internal/handler/budgets.go:320-378 | which years can be created and copied from, and that creating one adds nothing but the copy |
| BudgetLines.CollisionExact | internal/db/queries.sql.go:76-102 | a copy violates no unique constraint exactly when the joined rows bring in every category once and none the year already maps |
| BudgetLines.CopyGoesThrough | internal/handler/budgets.go:343-377 | copying an existing year into a free one meets no constraint |
| BudgetLines.CopyIsFaithful | internal/db/queries.sql.go:76-102 | the new year has the same lines with the same category sets by line name, and every other line keeps its fields and categories |
| BudgetLines.EveryHistoryHasOneOwner | migrations/20261101000004_budgets.sql:28-46 | over every history of creates, copies, saves and deletes a category feeds at most one line per year |
| BudgetStore.Store.CheckLineCategories | internal/handler/budgets.go:638-679 | passes exactly when every category exists and none is another line's; a conflict names the first such category and its owner |
| BudgetStore.Store.SaveBudgetLine | internal/handler/budgets.go:681-737 | line and mappings are written together or not at all, as the save function says |
| BudgetStore.Store.HandleBudgetLineSave | internal/handler/budgets.go:767-809 | the exact condition of every answer with nothing in between: saved if and only if all ids are given, the year and the categories exist, none is another line's, the line exists and its name is free; a category conflict names the first owned category and its owner; a save changes its own line only |
| BudgetStore.Store.CreateBudget | internal/handler/budgets.go:311-378 | every rejection, and the budget with its copies in one transaction |
| BudgetReport.MappedOnce | migrations/20261101000004_budgets.sql:28-46 | all lines of a year together join a mapped category once and an unmapped one never |
| BudgetReport.BudgetReconciles | frontend/src/budget/BudgetPlanView.tsx:335-346 | income actuals less expense actuals, plus unbudgeted incoming less unbudgeted outgoing, is the signed sum of the year's CZK transactions but for internal transfers no line maps |
| BudgetReport.KindActualExact | internal/db/queries.sql.go:820-850 | income actual and expense actual, each, is the money of the year's CZK transactions whose category a line of that kind owns |
| BudgetReport.DirectionTotalExact | internal/db/queries.sql.go:2712-2732 | unbudgeted incoming and unbudgeted outgoing, each, is the money of its rows |
| BudgetReport.BudgetIsYearsMoney | frontend/src/budget/BudgetPlanView.tsx:335-346 | the same figure read off the transactions: CZK, dated in the year, mapped by a line or not an internal transfer |
| BudgetReport.BottomFigureIgnoresBudget | frontend/src/budget/BudgetPlanView.tsx:405-411 | editing lines moves the difference including unbudgeted only if an internal transfer category gains or loses its line |
| BudgetReport.WriteKeepsClosedYears | internal/handler/rules.go:407-411 | one write for a row dated in the current year or later touches no row an earlier year counts, whatever was decided and whatever happened since it was listed |
| BudgetReport.ClosedYearsStayClosed | internal/handler/rules.go:415-436 | a re-apply without override-rules changes no line actual, no unbudgeted total and no unbudgeted group of any earlier year |
| BudgetReport.FromDateExact | internal/handler/rules.go:415-436 | the from date is 1 January of the current year by default, and any parsed date that is not before it or comes with override-rules |
| ClosedYears.ClosedYearStays | internal/handler/rules.go:407-436 | over every history in which re-applies start after the year, overlapping ones included, and nobody books or assigns a transaction of the year, its line actuals, unbudgeted totals and groups stand |
| ClosedYears.WithoutOverrideCurrentYear | internal/handler/rules.go:415-436 | without override-rules a re-apply starts after every year before the current one |
| Categories.CategoryDesk.CreateCategory | internal/handler/categories.go:89-138 | every rejection; otherwise one new category under an existing top-level parent, or none |
| Categories.CategoryDesk.DeleteCategory | internal/handler/categories.go:157-208 | removes a category exactly when it is custom, has no sub-category, and no row, rule or budget line uses it |
| Categories.CreateExact | internal/handler/categories.go:89-138 | which requests are accepted and inserted, and the category stored |
| Categories.DeleteExact | internal/handler/categories.go:157-208 | the answer to a delete, and that it removes that category alone |
| Categories.StepAddsCategory | internal/handler/categories.go:107-138 | a category appears exactly by the insert of a checked request, its name free and its parent still there |
| Categories.StepKeepsCategory | internal/handler/categories.go:157-208 | a category disappears exactly when deleted while custom, childless and unused, and never changes |
| Categories.CategoryStays | internal/handler/categories.go:89-208 | over every history a category keeps its name and parent while it is there, and ids never come back |
| Categories.SeededTreeStaysOneLevel | migrations/20261101000005_category_ids.sql:9-20 | the same from the seeded categories on: the mandatory ones keep their ids and names |
| Categories.TreeStaysOneLevel | internal/handler/categories.go:107-120 | over every interleaving of create and delete requests, checks and inserts apart, the tree stays one level deep and mandatory categories stay as they are |
| Categories.RolledUpExact | internal/db/queries.sql.go:1163-1182 | a top-level category's rolled-up total is the sum of its own and its children's plain totals; a sub-category has none |
| Categories.PlainTotalExact | internal/db/queries.sql.go:1163-1182 | a plain total is the money of the category's transactions of that direction, currency and period, internal transfers left out |
| Categories.RollupConservesTotals | internal/db/queries.sql.go:1163-1182 | in a tree of one level grand totals per direction and currency are the same plain and rolled up, the joined parent losing no row |
| Association.PartsAct | internal/handler/categories.go:157-208 | in the whole, a ledger action, a category request and a budget edit act as they do alone, on the tables the others wrote |
| Association.WalksAct | internal/handler/waivers.go:146-197 | so does each step of a waiver walk |
| References.EveryReferenceStands | migrations/20261101000005_category_ids.sql:55-75 | from the seeded database on, over every interleaving of ledger, waiver, category and budget actions, every transaction, rule and budget line has its category and every sub-category its parent |
| References.EveryBudgetReconciles | frontend/src/budget/BudgetPlanView.tsx:335-346 | the budget page reconciles in every state so reached, for every year |
| References.EverySummaryConserves | internal/db/queries.sql.go:1163-1182 | the summary's grand totals agree in every state so reached |

## Left out

- HTTP decoding and status codes, roles, tokens, audit and event logs, and pagination: plumbing around the operations modelled here; `override` and which statement fails are inputs.
- Fio JSON, amounts as decimal text and float64: amounts are integer hellers, ids are integers, and a response that cannot be parsed is one kind of fault.
- The Orca fetch, the scheduler and time zones: members, identifiers, own accounts, the current date and the clock are inputs.
- Trimming and length limits of rule, budget and waiver texts, and the budgeted amount's pattern: requests enter the model after that validation. Category names are byte strings.
- internal/handler/rules.go:121-160: the trimming loop of a rule request; only the checks that follow it are modelled.
- frontend/src/budget/BudgetPlanView.tsx: grouping lines into blocks and moving a line up or down change the order of rows shown, not a figure.
- internal/handler/budgets.go:219-231: the maps that attach categories and actuals to lines for the response.
- The order of the missing-payment lists and the workplace-scoped variants, which add one filter to the same conditions.
- Categorization.Categorize: lower-casing covers Basic Latin, Latin-1 and Latin Extended-A letters; other letters compare as they are.
- LedgerMachine.EveryReachableLedgerOk: starting a run or a re-apply loads its rules, own accounts and list in one action.
- LedgerMachine.LedgerSafety: starts from the seeded database; rows written before today's constraints existed are covered by EveryReachableLedgerOk only as far as they satisfy the invariant.
- Processing.Database.ProcessOne: ids count up without the gaps a rolled-back insert leaves in a sequence, and processed_at and public visibility are not part of a row.
- Processing.Database.AssignTransaction: that a coverage row's member exists is checked before the writes and not repeated as a foreign key; the request is read once, so a member deleted meanwhile is not modelled.
- FioJob.Desk.SyncAccount: the account balance, the error text of a run, and reconciling runs left running after a crash; the rewind and the closing of the run row are one action.
- FioOrdinary.OrdinaryOperationNeverLoses: one cursor sync per account at a time; FioOverlap.TwoSyncsLoseMovement shows that it is needed.
- LedgerRefine.ReapplyRefinesInterleaved: rules, identifiers and own accounts stay put and no row is unassigned meanwhile; an unassigned row keeps its fallback category whatever the chain says.
- BudgetStore.Store.CreateBudget: notes and auditor reports of a budget.
- Interleaving inside one database transaction.
