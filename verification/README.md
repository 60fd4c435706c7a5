# Verification of the shop back end

A Dafny model of the parts of the back end whose correctness spans many steps, and proofs about it. `dafny verify
dfyconfig.toml` checks all of it. Each module follows a part of the program:

- **Outbox of domain events** (`EventRetries`, `EventOutbox`, `DomainEventDispatcher`, `Transactions`, `EventPayload`,
  `DeliveryProtocol`, `LateSettlements`, `DispatcherSteps`, `DeliveryLiveness`, `DeliveryTimes`). Events published in a
  transaction are stored before its commit, one delivery per handler, and run after it, at most eight times, each time
  under a lease. The tables are a class whose methods are the statements, one method an atomic statement.
  `DeliveryProtocol` lets the instances, the retry job, the staff and the cleanup interleave, with handlers that end or
  not, processes that die and statements that carry an instant read earlier; `DispatcherSteps` shows that what the
  dispatcher does are steps of it; `LateSettlements` says what a settlement after its lease may do; `DeliveryLiveness`
  bounds how long a delivery stays pending and `DeliveryTimes` says how long it waits at least; `Transactions` proves
  that callback arrays cut back to marks, and numbered savepoints, do what a tree of nested steps means.
- **Archive of the audit trail** (`Calendar`, `AuditExport`, `ArchiveProtocol`, `ArchiveSteps`, `AuditArchive`). A day
  is exported page by page, read back, linked under a free name, and deleted in a transaction that rolls back unless it
  deleted exactly what the file holds. `ArchiveProtocol` interleaves any number of runs with insertions, crashes and
  power cuts, and `ArchiveSteps` shows that what the classes of `AuditArchive` do are steps of it.
- **CSV** (`Csv`, `CsvRecords`). The parser as its loop, the automaton it follows, and a printer of RFC 4180 (section 2)
  that the parser undoes.
- **Categories** (`CategoryVisibility`, `CategoryTrees`, `CategoryMoves`). The memoised walk against the recursive query
  of the database, the trees of the store and of the administration, and concurrent changes to the tree.
- **Products and their import** (`Variants`, `Products`, `ProductChanges`, `FileImport`, `ProductRows`, `ProductFile`,
  `ImportProducts`, `ImportBuild`, `ImportExecution`, `RowCells`, `ImportedProducts`, `ImportAccepts`). The aggregate
  with its transitions, and the import of a file, from its text through the header, the cells and the passes over its
  rows down to the products that the aggregate builds from it.
- **Cache and money** (`LruStore`, `Money`).

Where the program changes something in place, the model does too: a class with the same fields, methods tied to a
function of the old state, and lemmas about that function. Each module proves its main results over every input, every
run or every reachable state.

## Hypotheses

- *Outbox.* Nobody's clock goes back, and a holder settles strictly before its lease ends, or never. `markDelivered` and
  `markFailedAttempt` update by ID alone, so a late one may do harm: `LateDelivered` and `LateFailure` say exactly when,
  `LateFailureHarms` and `LateSuccessHarms` that every such one leads to a broken promise, and three reachable runs show
  each harm. Statements that also checked the row would need no hypothesis (`CheckedRunIsSafe`), and would refuse
  nothing that comes in time (`InTimeIsOwn`).
- *Liveness.* The retry job looks at least every `gap`, a statement runs within a minute of reading the clock, what is
  due fits the batch, and `claimDue` skips no row for being locked by another statement.
- *Archive.* The archive keeps files for more months than the database keeps records, which the environment validation
  demands at start.
- *Category moves.* An update without a move takes no lock and writes back the parent it read. `WhenAStaleSaveIsSafe`
  says exactly when that does no harm: the check of a move would accept the parent, and a move already checked under the
  lock does not reach its own category through it. `RunKeepsForest` covers every run whose updates without a move all do
  no harm; one that writes back the parent that is there is among them (`CurrentIsHarmless`), and one that does harm
  makes a cycle at once or with the move checked (`HarmMakesACycle`).

## Where the code does less than it says

- An instance that settles late may free the lock of another holder, leave a delivery pending for ever, which no step
  takes or fails (`StrandedForEver`), or fail a delivered one after the staff reset it
  (src/platform/events/event-outbox.ts:154-182). Each is the end of a run: `LateSettlementBreaksExclusion`,
  `LateSettlementStrandsARow`, `LateSettlementFailsADelivered`.
- A rename that overlaps two moves may put two categories under each other, by its own save or by that of a move that
  was checked before it (src/modules/catalog/application/update-category.use-case.ts:42-62): `AStaleRenameMakesACycle`
  and `AStaleRenameSpoilsAMove`.
- `validOptions` asks `name in valid` of a plain object, so an option named `constructor` counts as repeated
  (src/modules/catalog/domain/variant.ts:112). `parseRow` does not reject such a column and `build` does not translate
  that error, so the import ends with it. `WhenAnErrorEscapes` gives the exact condition for all files and
  `AnInheritedNameEscapes` a file of one row. The name `__proto__`, which `validOptions` rejects too, never gets that
  far, since the reader assigns its cell to an object, which leaves nothing there
  (src/platform/files/csv-file.ts:99-104).
- `monthsBefore` is not monotone as an instant; its UTC day is (`WhenTheInstantGoesBack`, `CutoffAdvances`).

## Model

| member | source | states |
|---|---|---|
| DeliveryProtocol.StepIsSafe | src/platform/events/event-outbox.ts:105-190 | every step of the protocol (statements of any instance, handlers, deaths, staff, cleanup, time) keeps the invariant: unique rows, at most one holder who may still settle, a lease behind every last attempt, a completed run behind every delivered row, nothing lost |
| DeliveryProtocol.RunIsSafe | src/platform/events/event-outbox.ts:105-190 | the invariant holds in every state of every run from empty tables |
| DeliveryProtocol.Exclusion | src/platform/events/event-outbox.ts:105-190 | in every state of every run: one live holder per delivery at most, never more than eight attempts, a pending delivery with eight attempts has a lease, and the handler of a delivered one ran to completion |
| DeliveryProtocol.DeliveredStays | src/platform/events/event-outbox.ts:154-182 | no step changes a delivered row; it only goes with its event, by a cleanup that may take it |
| DeliveryProtocol.NoEventIsLost | src/platform/events/delivered-event-cleanup.ts:32-44 | in every state of every run, an event ever stored still has exactly one delivery per handler it was stored with, or it left after each of those handlers ran to completion |
| DeliveryProtocol.StoredForRegistered | src/platform/events/cls-domain-event-publisher.ts:72-77 | an event stored in a run was stored by one of its steps, wanted by exactly the handlers then registered for its type; with `NoEventIsLost`, it has exactly one row for each of them |
| DeliveryProtocol.LeavesAfterRetention | src/platform/events/delivered-event-cleanup.ts:32-44 | the step that deletes an event is a cleanup, and each delivery of the event was delivered longer ago than the retention |
| DeliveryProtocol.GoneAfterRetention | src/shared-kernel/cleanup.ts:28-31 | over runs: an event that is gone was there until a cleanup, when every handler it was stored for had its row delivered longer ago than the retention |
| DeliveryProtocol.WantedGrows | src/platform/events/event-outbox.ts:72-99 | what `NoEventIsLost` speaks of is every event ever stored with its handlers: the history never forgets one |
| LateSettlements.LateDelivered | src/platform/events/event-outbox.ts:154-164 | settling as delivered at any instant keeps the invariant if and only if nobody else holds the delivery then |
| LateSettlements.LateFailure | src/platform/events/event-outbox.ts:167-182 | a failure recorded at any instant keeps the invariant if and only if nobody else holds the delivery and it does not unlock a pending row without attempts left; it leaves DELIVERED exactly when it was the last attempt of a delivered row |
| LateSettlements.LateRewrite | src/platform/events/event-outbox.ts:154-182 | a settlement by ID alone keeps the invariant if and only if the row it writes is one the protocol knows and nobody else holds the delivery |
| LateSettlements.TheRowTells | src/platform/events/event-outbox.ts:154-182 | nobody else holds a delivery whose row is settled, free, or carries the lease of this holder: what a statement could check |
| LateSettlements.CheckedFailureIsSafe | src/platform/events/event-outbox.ts:167-182 | a failure recorded only where the row still has the lease and the attempt of the holder keeps the invariant, late or not |
| LateSettlements.LateFailureHarms | src/platform/events/event-outbox.ts:167-190 | wherever a failure recorded by ID alone breaks the invariant, two more enabled steps end with two holders of the delivery who may both settle, or with a row no step ever takes |
| LateSettlements.LateSuccessHarms | src/platform/events/event-outbox.ts:154-182 | wherever a success recorded by ID alone breaks the invariant, somebody else holds the delivery, and its own settlement, in time, changes the delivered row: to FAILED exactly when its handler did not return and it has the eighth attempt |
| LateSettlements.CheckedRunIsSafe | src/platform/events/event-outbox.ts:154-182 | the invariant holds in every state of every run whose settlements come at any instant but only where the row still has the lease and the attempt of the holder |
| LateSettlements.InTimeIsOwn | src/platform/events/event-outbox.ts:154-182 | a settlement in time always finds the row as its holder took it, so such a check refuses none |
| LateSettlements.LateSettlementBreaksExclusion | src/platform/events/event-outbox.ts:167-182 | a reachable state where a settlement at the end of its lease leaves two live holders of one delivery |
| LateSettlements.LateSettlementStrandsARow | src/platform/events/event-outbox.ts:167-190 | a reachable state where a failure recorded at the end of its lease leaves a pending row with eight attempts, no lock and no holder |
| LateSettlements.StrandedForEver | src/platform/events/event-outbox.ts:105-190 | whatever steps follow, such a row stays so: nothing takes, fails, resets or deletes it |
| LateSettlements.LateSettlementFailsADelivered | src/platform/events/event-outbox.ts:167-182 | a reachable state, after a reset by the staff, where a failure recorded at the end of its lease turns a delivered row into a failed one |
| LateSettlements.FailsInTurn | src/platform/events/event-outbox.ts:167-182 | a delivery that failed any number of attempts under eight, each in time, is reachable |
| DeliveryLiveness.StepKeepsWaiting | src/platform/events/domain-event-dispatcher.ts:127-165 | a step on pace never moves the deadline of a stored delivery, whether it is taken, fails, is abandoned or another one is taken, unless the staff resets it |
| DeliveryLiveness.WaitsFrom | src/platform/events/domain-event-dispatcher.ts:127-165 | so over any stretch of a run on pace a delivery keeps the deadline it had |
| DeliveryLiveness.BoundOfNew | src/platform/events/event-retries.ts:1-21 | the bound from the delay table: 1341 minutes of waits, the initial minute, eight leases of five minutes and nine gaps |
| DeliveryLiveness.SettledInTime | src/platform/events/event-retries.ts:1-21 | every delivery stored at `t` and not reset by the staff is DELIVERED or FAILED from `t` plus 1382 minutes and nine gaps on, whatever fails or dies |
| DeliveryLiveness.PaceNeverBlocks | src/platform/events/domain-event-dispatcher.ts:127-165 | from any state on pace the job can give up what is abandoned and take all that is due, and the clock may then go on by the whole gap: the pace asks nothing impossible |
| DeliveryTimes.RetriesWait | src/platform/events/event-retries.ts:1-21 | over runs: the job never takes a delivery sooner after its last recorded failure than 1, 5, 15, 60, 180, 360 or 720 minutes, by the number of that attempt, and after the eighth never, unless the staff resets it |
| DeliveryTimes.NewOnesWait | src/platform/events/event-outbox.ts:72-99 | over runs: the job never takes a new delivery within a minute of its being stored |
| DeliveryTimes.ResetIsDue | src/platform/events/event-deliveries.ts:124-201 | what the staff resets has no attempts and is due at once: the next look takes it, unless its batch is full or another statement locks the row |
| DeliveryTimes.DeliveredWhenSettled | src/platform/events/event-outbox.ts:154-164 | over runs: a delivered row holds the instant of the step that settled it, once its handler had returned |
| DeliveryTimes.GoneDaysAfter | src/shared-kernel/cleanup.ts:28-31 | over runs: an event that is gone was settled as delivered for each handler by a step of the run more than the days of the retention, of 86,400,000 milliseconds, before the clock of its deletion |
| EventRetries.Delay | src/platform/events/event-retries.ts:1-5 | the wait after an attempt is between a minute and twelve hours |
| EventRetries.NextAttemptAt | src/platform/events/event-retries.ts:13-21 | there is no next attempt exactly from the eighth on; otherwise it is between a minute and twelve hours later |
| EventOutbox.EventOutbox.Save | src/platform/events/event-outbox.ts:72-99 | stores each event that has handlers, with one new pending delivery per handler, or nothing at all, and it fails exactly when a unique key would be broken |
| EventOutbox.SavingKeepsConstraints | src/platform/events/event-outbox.ts:72-99 | storing keeps every delivery with its event and every pair of event and handler unique |
| EventOutbox.InsertedIsSaved | src/platform/events/event-outbox.ts:72-99 | the rows built from the events are what storing promises: exactly the wanted pairs, each in one row |
| EventOutbox.EventOutbox.Claim | src/platform/events/event-outbox.ts:105-120 | takes the delivery of the pair when it is pending with seven attempts at most and no lease runs, with one more attempt and a lease of five minutes, or answers nothing when there is none and changes nothing |
| EventOutbox.EventOutbox.ClaimDue | src/platform/events/event-outbox.ts:126-152 | takes only rows that are pending, with seven attempts at most, without a lease that runs and with a next attempt not later than now; leaves such a row only when another statement locks it or the batch is full of earlier ones; and answers exactly those taken, oldest event first |
| EventOutbox.EventOutbox.FirstDue | src/platform/events/event-outbox.ts:132-138 | the first `limit` candidates by next attempt, and no other |
| EventOutbox.EventOutbox.SortedClaims | src/platform/events/event-outbox.ts:140-151 | answers each taken row once, in the order of its event |
| EventOutbox.TakesAllThatFit | src/platform/events/event-outbox.ts:126-152 | when nobody locks rows and what is due fits the batch, all of it is taken |
| EventOutbox.EventOutbox.MarkDelivered | src/platform/events/event-outbox.ts:154-164 | rewrites that one row as delivered, whoever holds it |
| EventOutbox.EventOutbox.MarkFailedAttempt | src/platform/events/event-outbox.ts:167-182 | rewrites that one row: pending with a later next attempt, or failed after the last one |
| EventOutbox.EventOutbox.FailAbandoned | src/platform/events/event-outbox.ts:185-190 | fails exactly the pending rows whose last attempt lost its lease, counts them, and leaves none |
| EventOutbox.EventOutbox.Retry | src/platform/events/event-deliveries.ts:124-144 | makes one failed delivery pending, without attempts and due now; any other status is an error that changes nothing |
| EventOutbox.EventOutbox.RetryAll | src/platform/events/event-deliveries.ts:153-201 | does the same to exactly the failed deliveries of the event type and the handler asked for, counts them, and leaves every other row as it was |
| EventOutbox.EventOutbox.DeleteBatch | src/platform/events/delivered-event-cleanup.ts:35-43 | deletes up to `limit` events, only ones whose deliveries were all delivered before the cutoff, and when it comes back short none is left |
| EventOutbox.EventOutbox.Cleanup | src/shared-kernel/cleanup.ts:12-26 | the batches together delete only events delivered longer ago than the retention, answer how many, and when that is fewer than they could, no removable one is left |
| EventOutbox.DeletingKeepsTheRest | src/platform/events/delivered-event-cleanup.ts:35-43 | deleting some events never changes whether another may be deleted |
| DomainEventDispatcher.DomainEventDispatcher.DeliverDue | src/platform/events/domain-event-dispatcher.ts:127-165 | one run of the job, whatever others write before each of its statements: abandoned rows fail, up to a batch of due rows is taken, and their turns follow one another, up to one whose own statement gets an error |
| DomainEventDispatcher.DomainEventDispatcher.QuietRun | src/platform/events/domain-event-dispatcher.ts:127-165 | when others leave the rows taken alone and no such error comes, each one taken ends delivered, failed, waiting or still held according to its own attempt, the counters are right, and no row changed that nobody else wrote |
| DomainEventDispatcher.DomainEventDispatcher.AttemptEach | src/platform/events/domain-event-dispatcher.ts:135-158 | the loop takes each turn once, in order and over the rows as they are by then, and stops at the first error of its own statements |
| DomainEventDispatcher.DomainEventDispatcher.AttemptOne | src/platform/events/domain-event-dispatcher.ts:141-157 | a delivery whose handler is not registered fails for good, and an error of that statement, such as that of a row that is gone, ends the run; another one is attempted |
| DomainEventDispatcher.DomainEventDispatcher.Attempt | src/platform/events/domain-event-dispatcher.ts:225-276 | the row, if it is still there, is settled by ID with the attempt taken, by how the handler ended; an error of the settlement changes nothing; answers whether the handler returned |
| DomainEventDispatcher.EachAttempted | src/platform/events/domain-event-dispatcher.ts:137-158 | attempts of different deliveries do not meddle: as long as others leave them alone, after all of them each row is what its own attempt alone would leave |
| DomainEventDispatcher.DomainEventDispatcher.DeliverTo | src/platform/events/domain-event-dispatcher.ts:203-220 | one handler after a commit: it takes its delivery exactly when the row is pending and free, and settles by ID what others left of it meanwhile; otherwise nothing changes |
| DomainEventDispatcher.DomainEventDispatcher.QuietDelivery | src/platform/events/domain-event-dispatcher.ts:203-220 | when others leave the rows alone meanwhile, the delivery of the pair is what its attempt leaves, and no other one changed |
| DispatcherSteps.TurnLeads | src/platform/events/domain-event-dispatcher.ts:137-158 | a turn that ends within its lease is steps of the protocol: the handler ends, then one statement settles the row, or none does |
| DispatcherSteps.JobLeads | src/platform/events/domain-event-dispatcher.ts:127-165 | a run of the retry job whose attempts end within their leases is steps of the protocol, whatever steps others take before each of its statements: from any safe state they lead to exactly the tables that the run leaves |
| DispatcherSteps.DeliveryLeads | src/platform/events/domain-event-dispatcher.ts:203-220 | so is one delivery after a commit |
| DomainEventDispatcher.DomainEventDispatcher.Register | src/platform/events/domain-event-dispatcher.ts:167-173 | a handler is added after those of its event type, and no other type changes |
| Transactions.PublishedIsWhatSurvives | src/platform/persistence/cls-transaction-manager.ts:47-65 | for any tree of publications, writes, joined runs, nested steps and caught failures, the publications and the rows left are what happened, in order, without what a failed nested step undid |
| Transactions.FailsExactly | src/platform/persistence/cls-transaction-manager.ts:26-65 | work fails if and only if an error is raised, by the work or by the release of a savepoint, at a point that it gets to and that nothing catches |
| Transactions.OccurrencesAreExact | src/platform/persistence/cls-transaction-manager.ts:26-65 | what happened are the publications and writes at points that the work gets to, in the order of the tree, each undone exactly when a nested step around it fails |
| Transactions.EachOccurs | src/platform/persistence/cls-transaction-manager.ts:26-65 | no publication or write that the work gets to is left out |
| Transactions.ClsTransactionManager.Execute | src/platform/persistence/cls-transaction-manager.ts:26-65 | pushing, marking and cutting callbacks, with numbered savepoints, gives exactly the meaning of the tree on top of what was there, for any tree |
| Transactions.ClsTransactionManager.RunNested | src/platform/persistence/cls-transaction-manager.ts:47-65 | a nested step that fails, even when its savepoint cannot be released, takes its rows and its callbacks with it, and nothing else |
| Transactions.ClsTransactionManager.Run | src/platform/persistence/cls-transaction-manager.ts:26-41 | all or nothing: it commits if and only if no error goes uncaught and no save fails, with the rows, the stored events and the batch to dispatch; otherwise it leaves none of them |
| Transactions.ClsTransactionManager.Commit | src/platform/persistence/cls-transaction-manager.ts:33-38 | the saves run before the commit, and one that fails leaves nothing |
| Transactions.SavesAreStored | src/platform/events/cls-domain-event-publisher.ts:42-58 | the saves together store the stored events, in publish order |
| Transactions.CutBack | src/platform/persistence/transaction-scope.ts:34-51 | cutting the arrays to the mark of an earlier state gives the callbacks of that state |
| Transactions.TransactionScope.DiscardSince | src/platform/persistence/transaction-scope.ts:42-51 | keeps exactly the callbacks up to the mark, and all of them for a mark of a longer state |
| Transactions.ClsDomainEventPublisher.RunAfterCommitCallbacks | src/platform/events/cls-domain-event-publisher.ts:84-98 | the callbacks of a transaction build one batch, dispatched once, that holds its events in publish order |
| Transactions.ClsDomainEventPublisher.Dispatch | src/platform/events/cls-domain-event-publisher.ts:101-113 | the batch is handed over in calls that hold every event once, in order and by its own kind, and no two calls in a row are of one kind |
| Transactions.ClsDomainEventPublisher.EndOfKind | src/platform/events/cls-domain-event-publisher.ts:104-106 | the inner loop stops at the first event of the other kind |
| Transactions.StoredIsDelivered | src/platform/events/cls-domain-event-publisher.ts:101-113 | the events a transaction stored are, in order, those its calls hand to `deliver` |
| Transactions.RunAndDispatch | src/platform/persistence/cls-transaction-manager.ts:26-65 | end to end, for any tree of work: it commits if and only if no error goes uncaught and no save fails; then the rows and the calls of the dispatcher hold just what survived, in order, and the events stored are just those of the calls of `deliver`; otherwise nothing is stored or called |
| EventPayload.StoringComesBack | src/platform/events/event-payload.ts:10-39 | reading what was stored gives the event back with every `toJSON` called, dates as dates, if and only if no object in it is shaped like a tagged date |
| EventPayload.PropertyComesBack | src/platform/events/event-payload.ts:10-39 | the same for any nested value, with what JSON leaves out left out |
| EventPayload.StoresAgain | src/platform/events/event-payload.ts:10-39 | storing what was read gives the same JSON if and only if every tagged date in it is written the canonical way |
| EventPayload.NeverLeftOut | src/platform/events/event-payload.ts:23-27 | nothing read back is something JSON would leave out |
| EventPayload.FailsExactly | src/platform/events/event-payload.ts:10-20 | storing a value fails if and only if it is an invalid date, or JSON takes one from inside it |
| EventPayload.StoringFailsExactly | src/platform/events/event-payload.ts:10-20 | so for a whole event; an invalid date that a `toJSON` returned does not count |
| ArchiveProtocol.StepIsSafe | src/modules/audit/application/audit-archive.ts:108-189 | every step of overlapping runs, with failures, crashes, power cuts and insertions, keeps the invariant |
| ArchiveProtocol.NoRecordIsLost | src/modules/audit/application/audit-archive.ts:108-189 | after any run, every record ever inserted is in the database, in a file of its day that survives power cuts, or in one that retention removed, whose day is before the cutoff of the database |
| ArchiveProtocol.KeptFilesNeverChange | src/modules/audit/infrastructure/local-disk-audit-archive-files.ts:119-133 | to the end of any run a kept file is there with what it held, unless retention removed it with just that |
| ArchiveProtocol.LeavesByItsFile | src/modules/audit/application/audit-archive.ts:167-185 | a record leaves the database only in the transaction of its day, and then all those of the day do |
| ArchiveProtocol.DeletesWhatWasExported | src/modules/audit/application/audit-archive.ts:167-185 | when the deleted IDs are the exported ones, the records deleted are exactly those of the file |
| ArchiveProtocol.StoredStays | src/modules/audit/infrastructure/local-disk-audit-archive-files.ts:119-133 | no step takes away or changes what is stored, but retention, which remembers it as removed |
| ArchiveProtocol.RemovedStayInTime | src/modules/audit/infrastructure/local-disk-audit-archive-files.ts:65-82 | with more months in files than in the database, no removed file is of a day at or after the cutoff of the database, now or later |
| AuditExport.ReadDay | src/modules/audit/application/audit-archive.ts:151-165 | for any page size of one or more the loop ends; it exports records of the day in the order of the index, each once, whatever others write meanwhile, and exactly the records of the day when nobody touches it |
| AuditExport.SelectsTheOldest | src/modules/audit/infrastructure/prisma-audit-logs.ts:103-125 | a page leaves out only later records, and none when it comes back short |
| AuditExport.EarlierComesFirst | src/modules/audit/infrastructure/prisma-audit-logs.ts:103-125 | records are in the order of their milliseconds, and of their IDs at one instant |
| AuditExport.LessIsLeft | src/modules/audit/application/audit-archive.ts:151-165 | every page that is not empty leaves less to read: the measure of the loop |
| AuditExport.PageCovers | src/modules/audit/application/audit-archive.ts:151-165 | on a day nobody touches, no page leaves a gap |
| AuditExport.SameRecords | src/modules/audit/infrastructure/prisma-audit-logs.ts:103-125 | the order of the index fixes the export: two of the same records are equal |
| AuditExport.SortedComparesAll | src/modules/audit/application/audit-archive.ts:182-204 | comparing sorted lists finds out exactly whether each ID is as often in both |
| AuditArchive.AuditArchive.Run | src/modules/audit/application/audit-archive.ts:108-139 | one run with nobody else writing: of the days with records before the cutoff it takes all, or the 31 oldest; those whose file reads back leave the database, each into a new file of its own, and no other file is new, so a record left before the cutoff is of a day that does not read back or of one after 31 others; all four counters are right, exactly the files older than the archive retention go; and from any state of the protocol its steps lead to what the run leaves |
| AuditArchive.AuditArchive.ArchiveDay | src/modules/audit/application/audit-archive.ts:147-189 | a day leaves the database only with a new file, under the first free name, that holds it; a file that does not read back is not kept, records that arrived meanwhile keep the whole day in the database; and all of it is steps of the protocol |
| ArchiveSteps.PagesLead | src/modules/audit/application/audit-archive.ts:151-165 | the pages of a day nobody touches are steps of the protocol to its whole export |
| ArchiveSteps.DroppedDayLeads | src/modules/audit/application/audit-archive.ts:166-179 | a day without records, or whose file does not read back, is steps of the protocol that leave all but the unfinished file as it was |
| ArchiveSteps.ArchivedDayLeads | src/modules/audit/application/audit-archive.ts:147-189 | a day whose file reads back, with records that arrive before its transaction, is steps of the protocol to a linked file and a day deleted, or kept when one arrived for it |
| AuditArchive.AuditArchive.KeepDay | src/modules/audit/application/audit-archive.ts:147-179 | a new file under the first free name holds the day exactly when it has records and the file reads back; otherwise no file changes |
| AuditArchive.AuditArchive.DeleteExported | src/modules/audit/application/audit-archive.ts:180-189 | the transaction deletes the day, or rolls back when a record of the day arrived |
| AuditExport.FindsArrivals | src/modules/audit/application/audit-archive.ts:182-186 | comparing the IDs finds out exactly whether the day got other records since its export |
| AuditArchive.AuditArchive.DeleteDay | src/modules/audit/infrastructure/prisma-audit-logs.ts:127-134 | deletes exactly the records of the day and answers each of their IDs once |
| AuditArchive.DaysAreExact | src/modules/audit/infrastructure/prisma-audit-logs.ts:92-101 | the days answered are those with records, each once, oldest first |
| AuditArchive.DaysBeforeAreDays | src/modules/audit/infrastructure/prisma-audit-logs.ts:92-101 | each day to archive has records and lies before the cutoff, and none comes twice |
| AuditArchive.DaysBeforeAreOldest | src/modules/audit/infrastructure/prisma-audit-logs.ts:92-101 | a day with records before the cutoff is left out only when as many earlier days are answered as the limit says |
| AuditArchive.LocalDiskAuditArchiveFiles.Keep | src/modules/audit/infrastructure/local-disk-audit-archive-files.ts:119-133 | links the file under the first free name of its day, and never replaces one |
| AuditArchive.LocalDiskAuditArchiveFiles.DeleteBefore | src/modules/audit/infrastructure/local-disk-audit-archive-files.ts:65-82 | deletes exactly the files of days before that one, and counts them |
| AuditArchive.LocalDiskAuditArchiveFiles.DiscardUnfinished | src/modules/audit/infrastructure/local-disk-audit-archive-files.ts:47-52 | what was being written goes, and no kept file does |
| Calendar.CutoffIsTheLastFit | src/shared-kernel/cleanup.ts:37-46 | the cutoff is the last day of its month not past the date of now |
| Calendar.LongerEndsEarlier | src/shared-kernel/cleanup.ts:37-46 | more months never give a later cutoff |
| Calendar.CutoffAdvances | src/shared-kernel/cleanup.ts:37-46 | as time passes the day of the cutoff never goes back |
| Calendar.WhenTheInstantGoesBack | src/shared-kernel/cleanup.ts:37-46 | the instant goes back if and only if both fall on one day and the later one is earlier in its day |
| Calendar.TheInstantMayGoBack | src/shared-kernel/cleanup.ts:37-46 | 30 and 31 March 2026 are such a pair |
| Calendar.MonthsAddUp | src/shared-kernel/cleanup.ts:37-46 | each month, leap years included, has the days between its first and that of the next month by the closed formula of the Gregorian calendar |
| Calendar.EarlierCounts | src/modules/audit/infrastructure/prisma-audit-logs.ts:92-125 | days and instants are in order exactly as their counts of days and milliseconds are |
| Csv.ParseCsv | src/platform/files/csv.ts:18-73 | the loop over the text gives what the automaton gives, for any text |
| Csv.FailsOnOddQuotes | src/platform/files/csv.ts:34-72 | parsing fails if and only if the text has an odd number of quotes |
| Csv.LastIsQuoted | src/platform/files/csv.ts:34-72 | from any state, the parser ends inside quotes exactly when the quotes of the text say so |
| Csv.CountsLines | src/platform/files/csv.ts:34-72 | the line counter counts LF, CR and CRLF, each as one, inside quotes too |
| Csv.RecordsAscend | src/platform/files/csv.ts:21-73 | the records of any text are of strictly ascending lines |
| Csv.ParsesInTurn | src/platform/files/csv.ts:34-72 | at a line end outside quotes, parsing the whole is parsing both sides, the second with later lines |
| Csv.RunsTheSameLater | src/platform/files/csv.ts:34-72 | what came before changes nothing but the lines |
| CsvRecords.RecordsBegin | src/platform/files/csv.ts:18-73 | every record begins at some offset after a line end outside quotes: its line is one plus the line ends before it, what is before parses to the records before it, and its fields are those of the text there |
| CsvRecords.ParsesWhatWasPrinted | src/platform/files/csv.ts:18-73 | parsing gives back the records printed by RFC 4180 (section 2), but the blank ones, each with its line: for any quoting that is enough, any line ends, and a last one or none |
| CategoryVisibility.VisibilityWalk.IsVisible | src/modules/catalog/domain/category-visibility.ts:19-34 | the memoised walk answers whether the category is active with active ancestors up to a root, and ends on cycles too |
| CategoryVisibility.VisibleCategoryIds | src/modules/catalog/domain/category-visibility.ts:13-38 | exactly the visible categories, for any list: dangling, cyclic or repeated |
| CategoryVisibility.VisibleInTheDatabase | src/modules/catalog/infrastructure/prisma-storefront.queries.ts:38-42 | the recursive query ends and gives the same set, the least one closed under its two rules |
| CategoryVisibility.VisibleIsLeast | src/modules/catalog/infrastructure/prisma-storefront.queries.ts:38-42 | a closed set of visible categories is all of them, and lies in every closed set |
| CategoryVisibility.CycleIsNotRooted | src/modules/catalog/domain/category-visibility.ts:19-34 | a category above itself has no chain to a root, so answering no on the path is right |
| CategoryVisibility.ParentDecides | src/modules/catalog/domain/category-visibility.ts:19-34 | a category is visible exactly when it is active and a root or under a visible parent |
| CategoryTrees.KeepWithAncestors | src/modules/catalog/application/category-trees.ts:30-40 | climbing until a category already kept still keeps all the ancestors, and no more than needed |
| CategoryTrees.AdminKept | src/modules/catalog/application/category-trees.ts:29-40 | the smallest set with the matching categories that holds the parent of each of its members |
| CategoryTrees.GroupByParent | src/modules/catalog/application/category-trees.ts:48-54 | each kept category is once in the list of its own parent |
| CategoryTrees.SortsInOrder | src/modules/catalog/application/category-trees.ts:55-64 | siblings by position and then name, in any order of names |
| CategoryTrees.LowerComesFirst | src/modules/catalog/application/category-trees.ts:55-64 | of two siblings the one with the lower position comes first, then the one whose name ranks lower, then the lower ID |
| CategoryTrees.Lists | src/modules/catalog/application/category-trees.ts:55-64 | the recursive build lists each category as often as it is under one of its tops: once or never |
| CategoryTrees.BuildsInOrder | src/modules/catalog/application/category-trees.ts:55-64 | every level is under its own parent and sorted |
| CategoryTrees.TreeOf | src/modules/catalog/application/category-trees.ts:44-65 | each kept category with kept ancestors up to a root is once in the tree, under its parent, siblings sorted, also when others form a cycle |
| CategoryTrees.PublicCategoryTree | src/modules/catalog/application/category-trees.ts:11-15 | the tree of the store lists exactly the visible categories |
| CategoryTrees.AdminCategoryTree | src/modules/catalog/application/category-trees.ts:22-41 | on a forest the tree lists exactly the smallest set of matching categories and their ancestors, or all of them without a filter |
| CategoryMoves.SaveKeepsForest | src/modules/catalog/infrastructure/prisma-category.repository.ts:53-74 | writing a parent into a forest leaves a forest if and only if the check of `moveUnder` accepts it |
| CategoryMoves.Lineage | src/modules/catalog/infrastructure/prisma-category.repository.ts:89-99 | the recursive query ends, on cycles too, and holds exactly the category and its ancestors |
| CategoryMoves.Move | src/modules/catalog/application/update-category.use-case.ts:49-62 | a move to a usable parent is accepted if and only if it makes no cycle, and changes only the parent |
| CategoryMoves.StepIsSafe | src/modules/catalog/application/update-category.use-case.ts:41-71 | every step of interleaved transactions keeps the forest and what the holder of the lock has checked |
| CategoryMoves.RunKeepsForest | src/modules/catalog/application/update-category.use-case.ts:41-71 | creations, locked moves, other changes and deletions of leaves, interleaved in any way, leave a forest, as long as no update without a move does harm |
| CategoryMoves.ReachableIsForest | src/modules/catalog/application/update-category.use-case.ts:41-71 | so does every such run from the empty table |
| CategoryMoves.CurrentIsHarmless | src/modules/catalog/application/update-category.use-case.ts:42-62 | writing back the parent that is there does no harm |
| CategoryMoves.WhenAStaleSaveIsSafe | src/modules/catalog/infrastructure/prisma-category.repository.ts:53-74 | an update without a move, stale or not, keeps the forest and the check of the move under way if and only if the check of a move would accept its parent and that move does not reach its own category through it |
| CategoryMoves.HarmMakesACycle | src/modules/catalog/infrastructure/prisma-category.repository.ts:53-74 | an update that does not meet the condition makes a cycle, or the checked move makes one as soon as it is saved |
| CategoryMoves.WhenAMoveIsSpared | src/modules/catalog/application/update-category.use-case.ts:50-62 | after a save the check would accept, a move checked before is still acceptable if and only if the save spares it |
| CategoryMoves.AStaleRenameMakesACycle | src/modules/catalog/application/update-category.use-case.ts:41-62 | a run from the empty table in which a rename overlaps two moves and two categories end under each other |
| CategoryMoves.AStaleRenameSpoilsAMove | src/modules/catalog/application/update-category.use-case.ts:41-62 | a run from the empty table in which the save of a stale rename leaves a forest, and the move checked before it then ends in a cycle |
| CategoryMoves.DeletingKeepsForest | src/modules/catalog/infrastructure/prisma-category.repository.ts:76-87 | deleting a category without children leaves a forest |
| CategoryMoves.Category.MoveUnder | src/modules/catalog/domain/category.ts:86-94 | refuses itself and its own descendants, and otherwise changes only the parent |
| CategoryMoves.Category.Deactivate | src/modules/catalog/domain/category.ts:97-102 | only an active category, and only its status |
| CategoryMoves.Category.Reactivate | src/modules/catalog/domain/category.ts:108-114 | only an inactive category under no inactive parent, and only its status |
| Variants.ValidOptions | src/modules/catalog/domain/variant.ts:97-124 | the options normalised, or the error, as the rules for the whole object say: at most three, sizes within limits, no name twice and none inherited |
| Variants.OneCode | src/modules/catalog/domain/variant.ts:64-86 | a UPC and the same code with a zero in front are both valid or neither, and have one key |
| Variants.ZeroKeepsCheckDigit | src/modules/catalog/domain/variant.ts:64-78 | a zero in front does not change whether the check digit is right |
| Variants.TrimsOnce | src/modules/catalog/domain/variant.ts:105-122 | trimming leaves nothing to trim |
| Variants.TrimTakesSpaces | src/modules/catalog/domain/variant.ts:104-150 | trimming takes spaces from both ends and nothing else |
| Variants.CasesAgree | src/modules/catalog/domain/variant.ts:47-54 | both cases of a letter are one in the other case, and nothing else changes |
| Variants.CheckDigitMakesTens | src/modules/catalog/domain/variant.ts:64-78 | a code has its check digit if and only if its digits, weighted 1 and 3 in turn from the last one, add up to a multiple of ten |
| Variants.OneWrongDigitIsFound | src/modules/catalog/domain/variant.ts:64-78 | no two codes that differ in one digit both have their check digit |
| Variants.KeyIsPadded | src/modules/catalog/domain/variant.ts:84-86 | the key of a code is the code filled with zeros in front to 14 digits |
| Products.CreatedFits | src/modules/catalog/domain/product.ts:100-125 | a new product meets the rules of the aggregate |
| Products.OperationKeepsInv | src/modules/catalog/domain/product.ts:152-356 | every operation that succeeds keeps the rules: SKUs distinct in all statuses, one set of option names, active variants with distinct combinations and GTIN keys, status in agreement with its timestamps, texts and categories within limits |
| Products.RunKeepsInv | src/modules/catalog/domain/product.ts:94-363 | so does any sequence of operations, with failures in between |
| Products.OperationKeepsFixed | src/modules/catalog/domain/product.ts:152-356 | no operation removes a variant or changes the ID; once published, none changes the slug, the first publication, or the SKU and options of a variant |
| Products.RunKeepsFixed | src/modules/catalog/domain/product.ts:94-363 | so over any sequence of operations |
| ProductChanges.CreatesExactly | src/modules/catalog/domain/product.ts:100-125 | a product is created if and only if its values fit, as a draft without variants with just those values |
| ProductChanges.EditsExactly | src/modules/catalog/domain/product.ts:152-179 | an edit succeeds exactly when the product is not archived, what is asked fits and a slug once published stays; each field is then as asked or as it was |
| ProductChanges.MovesExactly | src/modules/catalog/domain/product.ts:186-356 | when each change of status or of where it is sold succeeds, and all that it changes; a first publication is kept |
| ProductChanges.AddsExactly | src/modules/catalog/domain/product.ts:203-228 | a variant is added if and only if its values fit and no other clashes with it, and it is then the last one, as asked |
| ProductChanges.UpdatesExactly | src/modules/catalog/domain/product.ts:234-275 | a variant changes if and only if what is asked fits, its locks allow it and no other clashes; each field is then as asked or as it was, and the other variants stay |
| ProductChanges.SellsExactly | src/modules/catalog/domain/product.ts:278-305 | when a variant goes out of sale and back, and that nothing else changes |
| ProductChanges.NoSuchVariant | src/modules/catalog/domain/product.ts:234-305 | without the variant, the error says so unless the product is archived |
| ProductChanges.LocksExactly | src/modules/catalog/domain/product.ts:234-262 | once published, a change of the SKU or the options is an error that names exactly those asked |
| Products.Product.Create | src/modules/catalog/domain/product.ts:100-125 | the draft without variants, or the error |
| Products.Product.EditDetails | src/modules/catalog/domain/product.ts:152-179 | the new state the rules of the details say, or the error and no change |
| Products.Product.ChangeStoreOnly | src/modules/catalog/domain/product.ts:186-197 | tells the store exactly when a published product changes |
| Products.Product.AssertOptionNames | src/modules/catalog/domain/product.ts:399-410 | comparing with one other variant is comparing with all of them, as long as the product meets its rules |
| Products.Product.AddVariant | src/modules/catalog/domain/product.ts:203-228 | adds the variant exactly when it is valid and fits the others, and keeps the rules; otherwise the error and no change |
| Products.Product.UpdateVariant | src/modules/catalog/domain/product.ts:234-275 | changes that variant exactly when the locks of publication and the rules between variants allow it, and keeps the rules |
| Products.Product.ReplaceVariant | src/modules/catalog/domain/product.ts:386-393 | replacing by ID wherever it is changes one place, since IDs are distinct |
| Products.Product.DiscontinueVariant | src/modules/catalog/domain/product.ts:278-290 | takes the variant out of sale, tells it once, and keeps the rules |
| Products.Product.ReactivateVariant | src/modules/catalog/domain/product.ts:296-305 | puts it back on sale exactly when no active variant has its combination or its GTIN |
| Products.Product.Publish | src/modules/catalog/domain/product.ts:311-328 | publishes a draft with active variants and fixes the first publication once |
| Products.Product.Archive | src/modules/catalog/domain/product.ts:331-340 | archives a published product, with its event |
| Products.Product.Reactivate | src/modules/catalog/domain/product.ts:346-356 | brings an archived product back as a draft |
| Products.Product.PullEvents | src/modules/catalog/domain/product.ts:359-363 | each event is answered once |
| FileImport.SortsStably | src/shared-kernel/file-import.ts:49-57 | the errors come by line, and those of one line in the order they were added |
| FileImport.ImportRowErrors.Add | src/shared-kernel/file-import.ts:37-42 | adds one error and remembers its line |
| FileImport.ImportRowErrors.ThrowIfAny | src/shared-kernel/file-import.ts:49-57 | fails exactly when there is an error, with the first hundred by line |
| ProductRows.ParseRow | src/modules/catalog/application/import-products.use-case.ts:288-380 | a row adds exactly the errors of its cells, in their order, and gives values exactly when it has the right number of cells |
| ProductRows.CentimetersFit | src/modules/catalog/application/product-import.ts:106-110 | a size the import reads is one the aggregate accepts |
| RowCells.ReadsGrams | src/modules/catalog/application/product-import.ts:96-100 | a number printed in at most ten digits is read as that weight if and only if it is from 1 to 2,147,483,647 |
| RowCells.ReadsCentimeters | src/modules/catalog/application/product-import.ts:106-110 | a size printed with one decimal or none is read as just that, unless it is zero |
| RowCells.CategorySlugsAreExact | src/modules/catalog/application/product-import.ts:113-122 | the slugs of a cell are those between bars, trimmed and in lowercase, without blanks, each once |
| RowCells.NoErrorsExactly | src/modules/catalog/application/import-products.use-case.ts:288-450 | a row has no error if and only if it has as many cells as the header and each of them is good: lengths, patterns, check digit, numbers, at most three options |
| RowCells.VariantSaysItsRow | src/modules/catalog/application/import-products.use-case.ts:588-598 | the variant of a row without errors has the SKU, the GTIN, the options with a value and the four measures that its cells say |
| RowCells.ProductSaysItsRow | src/modules/catalog/application/import-products.use-case.ts:573-584 | the product has the title, the description unless blank, the brand, the categories and whether it is for the store only that the cells of the first row say |
| ProductFile.ColumnsOf | src/platform/files/csv-file.ts:122-158 | a header is taken exactly when every cell names a column, in any case and with any spaces around, none twice, and every required one is there |
| ProductFile.CellIsUnderItsColumn | src/platform/files/csv-file.ts:90-112 | a known cell is the trimmed one under its column, and '' without the column or the cell |
| ProductFile.OptionsAreUnderTheirColumns | src/platform/files/csv-file.ts:96-104 | the options of a row are exactly the trimmed cells under the option columns, each name once, without one named `__proto__` |
| ProductFile.AnyOrderReadsTheSame | src/platform/files/csv-file.ts:90-112 | the order of the columns does not matter: the same cells under the same columns give the same values and the same options |
| ProductFile.ReadProductFile | src/modules/catalog/presentation/product-file.ts:31-67 | the rows of a text, or the first complaint about it: quotes, no header, columns, no rows, too many rows, or a long option name |
| ProductFile.FileIsRead | src/modules/catalog/presentation/product-file.ts:31-67 | whatever text is read, its rows are what the import takes for granted: between one and 5,000, of ascending lines, trimmed, with option names trimmed, in lowercase, of 1 to 30 characters and once each |
| ImportProducts.ParseRows | src/modules/catalog/application/import-products.use-case.ts:288-300 | the errors and the values of all the rows, in the order of the file |
| ImportProducts.ProductsOf | src/modules/catalog/application/import-products.use-case.ts:456-488 | the loop groups the rows by slug and adds the errors of rows that disagree with the first of their product |
| ImportBuild.GroupedIsExact | src/modules/catalog/application/import-products.use-case.ts:456-488 | one product per slug in order of first appearance, with every row of its slug in the order of the file |
| ImportBuild.RowsAddUp | src/modules/catalog/application/import-products.use-case.ts:456-488 | every row with a slug is in one product |
| ImportProducts.RejectRepeated | src/modules/catalog/application/import-products.use-case.ts:519-550 | adds an error for exactly the rows whose SKU or GTIN key an earlier row has, whatever other errors those rows have |
| ImportProducts.RejectTaken | src/modules/catalog/application/import-products.use-case.ts:158-202 | adds an error for every slug, SKU and GTIN key that the catalog has |
| ImportProducts.BrandsOf | src/modules/catalog/application/import-products.use-case.ts:205-239 | adds an error for every product whose brand is not an active one |
| ImportProducts.CategoriesOf | src/modules/catalog/application/import-products.use-case.ts:245-284 | adds an error for every product with a category that is not there or not active |
| ImportBuild.ReadyWithoutErrors | src/modules/catalog/application/import-products.use-case.ts:288-450 | a row without errors has everything the aggregate asks of a product and a variant |
| ImportExecution.BuildVariants | src/modules/catalog/application/import-products.use-case.ts:583-616 | the loop over the rows with the aggregate gives what one row after another gives, up to the error that escapes |
| ImportExecution.VariantsOutcome | src/modules/catalog/application/import-products.use-case.ts:583-616 | from rows already checked, each attempt adds its variant, adds an error of its row, or ends with the error of an inherited name; no other error escapes |
| ImportExecution.AllAdded | src/modules/catalog/application/import-products.use-case.ts:583-616 | without errors the product has a variant per row, in order |
| ImportExecution.Build | src/modules/catalog/application/import-products.use-case.ts:557-617 | builds the product with the aggregate, or nothing when the data of its first row has errors; what it holds then is `RowCells.ProductSaysItsRow` and `RowCells.VariantSaysItsRow` |
| ImportedProducts.ChecksHold | src/modules/catalog/application/import-products.use-case.ts:519-550 | rows that no check complained of are ready for the aggregate and apart from each other |
| ImportedProducts.Execute | src/modules/catalog/application/import-products.use-case.ts:107-155 | the answer for all rows: the error that escaped, or the first hundred errors by line (all of them when fewer), or the products; and when the rows are as read, the products are one per slug with a variant per row, no code is twice in the file or in the catalog, and every product and variant says what the cells of its rows do |
| ImportedProducts.ImportText | src/modules/catalog/presentation/admin-product-imports.controller.ts:51-53 | from the text of any file: the complaint about the file, or what the import of its rows answers; and when that is products, they are one per slug with a variant per row, no code is twice in the file or in the catalog, and every product and variant says what the cells of its rows do |
| ImportedProducts.WhenAnErrorEscapes | src/modules/catalog/application/import-products.use-case.ts:598-614 | for every file: an error the import does not translate escapes if and only if, in a product whose first row has its data, a row without errors has an option named `constructor` |
| ImportedProducts.AnInheritedNameEscapes | src/modules/catalog/domain/variant.ts:112-114 | a file of one row that no check complains of and whose import ends so |
| ImportedProducts.ImportsTheFile | src/modules/catalog/application/import-products.use-case.ts:107-155 | without errors: one product per slug in order of first appearance and new to the catalog, each within the rules of the aggregate with a variant per row in the order of the file, as many variants as rows, and no SKU or GTIN key twice in the file or in the catalog |
| ImportAccepts.ImportsExactly | src/modules/catalog/application/import-products.use-case.ts:107-155 | a file is imported if and only if each row is good, the later rows of a product leave its columns empty or repeat them, every code is new in the file and the catalog, brands and categories are known and active, and the variants of a product have the same option names, other values and no option named `constructor` |
| ImportAccepts.ChecksExactly | src/modules/catalog/application/import-products.use-case.ts:165-285 | the passes before the building find no error if and only if the cells meet those checks |
| ImportAccepts.BuildsExactly | src/modules/catalog/application/import-products.use-case.ts:557-617 | building finds no error and no error escapes if and only if the variants of each product meet the rules between them |
| ImportedProducts.BuildsTheFile | src/modules/catalog/application/import-products.use-case.ts:557-617 | each product has what the cells of its first row say, its usable brand and categories, and a variant per row with what the cells of that row say |
| LruStore.LargerHoldsMore | src/platform/cache/lru-store.ts:17-41 | after the same uses a store holds some of what a larger one holds, in the same order and with the same values |
| LruStore.HitsAreLatest | src/platform/cache/lru-store.ts:17-33 | after any uses, an entry holds the last value set for its key since it was deleted or the store cleared |
| LruStore.StaysWithinLimit | src/platform/cache/lru-store.ts:25-33 | after any uses, each key is once and there are never more than the limit |
| LruStore.NothingDroppedBelowLimit | src/platform/cache/lru-store.ts:25-33 | a store with room for all the uses misses nothing |
| LruStore.DroppedExactly | src/platform/cache/lru-store.ts:17-33 | a key that was set or found is still there, as long as it is not used, deleted or cleared again, if and only if at no time since then as many others as the limit had been used and not deleted |
| LruStore.DroppedWithoutDeletes | src/platform/cache/lru-store.ts:25-33 | when nothing is deleted meanwhile: it is missing if and only if at least as many others as the limit were used after it |
| LruStore.ADeleteMakesRoom | src/platform/cache/lru-store.ts:35-37 | a delete makes the difference: in a store of two, two others are used after a key and it is still there |
| LruStore.LruStore.Get | src/platform/cache/lru-store.ts:17-23 | answers the value, and its key becomes the one used last; a miss changes nothing |
| LruStore.LruStore.Set | src/platform/cache/lru-store.ts:25-33 | the key becomes the one used last, and the one used least recently goes when there are too many; in a store of one or more, the key just set is found with its value |
| LruStore.LruStore.Delete | src/platform/cache/lru-store.ts:35-37 | only that key goes, and it answers whether it was there |
| LruStore.LruStore.Clear | src/platform/cache/lru-store.ts:39-41 | nothing is left |
| Money.ContainedTax | src/shared-kernel/money.ts:64-81 | the nearest cent to the exact tax, never more than the amount, or the error for a rate out of range |
| Money.RoundedIsNearest | src/shared-kernel/money.ts:64-81 | the integer division with half the denominator rounds to the nearest cent, ties up |
| Money.NearestIsOne | src/shared-kernel/money.ts:64-81 | there is only one such cent |
| Money.GrowsWithAmount | src/shared-kernel/money.ts:64-81 | a larger amount never contains less tax |
| Money.GrowsWithRate | src/shared-kernel/money.ts:64-81 | a higher rate never takes less |
| Money.WithinHalfACentPerLine | src/shared-kernel/money.ts:64-81 | over any list of lines the sum of the rounded taxes is within half a cent per line of the exact tax of the total |
| Money.WithinHalfACent | src/shared-kernel/money.ts:64-81 | the same as real numbers of cents |
| Money.SubtractUndoesAdd | src/shared-kernel/money.ts:36-45 | adding and subtracting undo each other, and subtracting fails exactly when it would go below zero |
| Money.MultiplyAddsUp | src/shared-kernel/money.ts:47-55 | the total of a line is what adding its units one by one gives, and fails exactly when that does |

## Left out

- Dispatch of a batch beyond one delivery: the loops of `dispatch` and `deliver` over events and handlers, the
  background tasks and the wait at shutdown only repeat what `DeliverTo` and `Dispatch` state.
- Work caught without a savepoint after a failed statement, and a rollback to a savepoint that itself fails: the
  connection is then unusable, and the outermost transaction rolls back.
- PostgreSQL and the file system: atomic statements and transactions, unique keys, row locks that skip, and an atomic
  link are assumed, and a statement of another transaction is before or after.
- NestJS, Prisma, async contexts and parallel steps inside one transaction: a transaction is one sequence of steps.
- UUIDs are numbers: only their order and their being new matter. Handlers and the clock are parameters.
- AuditArchive.AuditArchive.Run: states the counters and the files of the whole run only when nobody else writes; with
  other writers and overlapping runs it is `ArchiveProtocol` that says what holds.
- AuditArchive.AuditArchive.ArchiveDay: takes the day to stay as it is while its pages are read, and lets records arrive
  only between the file and the deletion; arrivals while it reads are in `AuditExport.ReadDay` and `ArchiveProtocol`.
- AuditArchive.AuditArchive.KeepDay: likewise exports a day that nobody touches while it reads.
- DispatcherSteps.JobLeads: leaves out runs of the job that outlive a lease, for which `LateSettlements` says what may
  happen.
- File names, compression and lines of the archive: a name is a day and a copy, a file is the IDs read back from it.
- Milliseconds since 1970 and years of more than four digits: an instant is a day and a time of day.
- Unicode spaces and letters: `trim`, `toLowerCase` and `toUpperCase` are those of ASCII. Collation is any rank of
  names.
- Option names with U+0000, which the joined comparison of names would confuse: names are sets.
- Sizes in floating point: a size is a whole number of tenths of a centimetre.
- JSON numbers that are not finite, keys that look like integers, which JavaScript moves to the front (those of a
  payload and names of options), and the order of keys in a JSONB column: fields come back in the order they were
  stored.
- The bytes of an uploaded file: its size, its UTF-8 decoding and its byte order mark. It is a text.
- Publishing outside a transaction, which saves in one of its own and delivers at once.
- The version of a product, by which its save finds out about another one, and the race between the checks of an
  import and its inserts, which the unique keys of the database then end.
- Names, slugs and positions of categories, the products that refer to a category, and the search index.
- The search index, the audit records and the dry run of the import, and the messages of its errors: an error is its
  line, its column and its code.
- Log messages, and the list of deliveries for the staff.
- Comparisons, equality and currencies of money: they add nothing to the rounding.
- Ordering, inventory, payments, prices and promotions.
