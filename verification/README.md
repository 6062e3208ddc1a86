# Verified model of the catalogue, cutover, outbox and back-office scripts

This project models, in Dafny, the parts of the repository that change state in steps, and proves what they keep.

- **Catalogue snapshot and import** (`CatalogSchema`, `CatalogNormalization`, `CatalogSnapshot`, `CatalogFallback`,
  `CatalogTarget`, `CatalogImport`, `CatalogImportRuns`): thirty tables are normalised, sealed, extended by fallback rows
  and replayed onto a target. Every foreign key holds after every statement, and over any sequence of imports with
  increasing extraction times the relation tables agree with the last snapshot and the fallback rows with its needs.
- **Fulfilment cutover** (`CanonicalJson`, `JsonReader`, `AuditArtifact`, `CleanupSchema`, `FulfillmentCleanup`,
  `StockReconciliation`): an audit is printed canonically and sealed; a guarded transaction then deletes what the audit
  covered and nothing else. The canonical text identifies its value and reads back as it, so comparing digests compares
  states.
- **Event outbox** (`Outbox`, `MarkerBackfill`): a state machine over leases, retries, crashes and resends keeps the
  order of the events of an aggregate, counts every failed send and loses no event; the migration of markers keeps every
  "was this already recorded?" answer.
- **Image copy** (`ConcurrentMap`, `ImageCopy`): workers over a shared cursor, a process that may die anywhere, reruns.
- **Deploy preflight** (`SqlComments`, `MigrationJournal`): a scanner against a token grammar, a journal over time.
- **Kernels** (`Csv`, `RefundKindBackfill`, `DisplayNumberBackfill`, `DateOrderedPaging`, `PayPeriods`, `Carousel`).

Tables are maps from key to row, or sequences where order matters. A transaction that fails restores the rows it started
from. Digests and derived ids are functions of which as little as possible is assumed: of digests the shape of their
output (`AuditArtifact.HexOutputs`), collisions being part of the statements; of derived ids that those of the SKUs at
hand are new and differ (`CatalogFallback.FreshIds`). Classes hold what the source updates in place; their methods are
specified by functions, and the lemmas about those functions say what the source promises. `dafny verify dfyconfig.toml`
checks everything.

Some properties one might expect do not hold of the code as written. Each has a lemma that shows how it fails, beside the
exact condition under which it holds:

- a cascading foreign key of another schema escapes the closure query (`CleanupSchema.UnlistedCascadeDeletesKeptRow`,
  exactly decided by `ClosureIsTrueExactly`);
- imports with equal extraction times may keep dropped relations (`CatalogImportRuns.EqualTimesHappen` is a run,
  exactly decided by `ImportKeepsIndex`);
- events can be sent out of order if a lease expires under a live worker, or a row is keyed ahead of an event that was
  sent or may be sent without another look at the rows ahead of it (`Outbox.LostLeaseReorders` is a run, exactly decided
  by `OrderlyExactly`): workers update rows by id alone, without checking that they still hold the lease;
- paging by date alone may repeat and so miss orders of equal date (`DateOrderedPaging.TiedDatesHideOrders` is a run,
  exactly decided by `EveryRunExaminesOnceExactly`);
- a journal entry that joins late under the mark of an applied one is never run and never reported, although the comment
  at `scripts/ops/batch-deploy-preflight.lib.ts:163-167` calls such entries skipped
  (`MigrationJournal.LateTwinIsNotReported`, exactly decided by `StatusIsCompleteExactly`);
- the carousel draws too many dots when no page start reaches the end of the scroll range (`Carousel.TooManyDots`,
  exactly decided by `DotsCountPagesExactly`), and pay periods do not tile across the end of year 99
  (`PayPeriods.PeriodsTileExactly`).

## Model

| member | source | states |
|---|---|---|
| `CanonicalJson.QuoteUnique` | scripts/fulfillment-v2/toolkit.ts:281-293 | a quoted string ends where it ends: two quoted strings with any texts after them are the same text only if the strings and the rests are the same, escapes and surrogate pairs included |
| `CanonicalJson.NumberUnique` | scripts/fulfillment-v2/toolkit.ts:281-293 | a printed number followed by a separator determines the number, fractions and exponents included, except for the sign of zero |
| `CanonicalJson.SortKeeps` | scripts/fulfillment-v2/toolkit.ts:287-290 | sorting the keys gives an ascending list with the same members, none added or dropped |
| `CanonicalJson.AscendingUnique` | scripts/fulfillment-v2/toolkit.ts:287-290 | a set of keys has one ascending listing, so the printed key order does not depend on the order of the fields |
| `CanonicalJson.ReadValue` | scripts/fulfillment-v2/toolkit.ts:281-293 | printed values are prefix-free: equal texts with separators after them come from values that print alike, at every depth |
| `CanonicalJson.CanonicalTextIdentifies` | scripts/fulfillment-v2/toolkit.ts:281-293 | two values have equal canonical text exactly when they are the same value up to key order and up to four collapses: non-finite numbers and null, `[undefined]` and `[]`, the two zeros, a Date and `{}` |
| `CanonicalJson.PlainSameIsEqual` | scripts/fulfillment-v2/toolkit.ts:281-293 | on values without `undefined`, non-finite numbers, negative zero and Dates the collapses vanish: what is left is equality up to key order |
| `CanonicalJson.CanonicalTextIdentifiesJson` | scripts/fulfillment-v2/toolkit.ts:281-299 | for plain JSON values, equal text means equal up to key order, both ways |
| `CanonicalJson.TextsCollideOutsideJson` | scripts/fulfillment-v2/toolkit.ts:281-293 | outside plain JSON distinct values do share a text, with concrete values |
| `JsonReader.ScanLiteral` | scripts/fulfillment-v2/toolkit.ts:281-293 | a printed string is a string literal of RFC 8259, section 7, that reads as the string, whatever follows it |
| `JsonReader.ScanNumberText` | scripts/fulfillment-v2/toolkit.ts:281-293 | a printed number is a number of RFC 8259, section 6, that reads as the same digits and power of ten, in all four forms of a numeral |
| `JsonReader.ReadUndoesPrint` | scripts/fulfillment-v2/toolkit.ts:281-293 | the round trip: for every plain JSON value the printed text is JSON text, and a reader written from RFC 8259 reads it back as the same value up to key order |
| `JsonReader.EscapeIsPaired` | scripts/fulfillment-v2/toolkit.ts:281-293 | printed strings have no lone surrogates, whatever the string has |
| `JsonReader.OrdinaryStringsStay` | scripts/fulfillment-v2/toolkit.ts:281-293 | a string of paired surrogates and no quotes, backslashes and controls is printed as it is |
| `JsonReader.ShortEscapesExactly` | scripts/fulfillment-v2/toolkit.ts:281-293 | quotes, backslashes and five controls have short escapes, every other escape has four lower-case hex digits |
| `AuditArtifact.IntegrityAcceptsExactlyTheSealedBody` | scripts/fulfillment-v2/toolkit.ts:295-340 | a sealed artifact whose body was replaced passes the integrity check exactly if the new body is the same value as the sealed one, or the two texts are a colliding pair, and, when signed, the key at hand gives the MAC of the sealing key |
| `AuditArtifact.SealsExactly` | scripts/fulfillment-v2/toolkit.ts:295-321 | sealing fails exactly on a key that is there and shorter than 32 bytes; the seal is the digest of the canonical text, signed exactly if there is a key that is not empty |
| `AuditArtifact.HexDigestExactly` | scripts/fulfillment-v2/toolkit.ts:309-312 | only texts of 64 lower-case hex digits are compared |
| `AuditArtifact.DigestsCanDiffer` | scripts/fulfillment-v2/toolkit.ts:295-312 | the assumption can be met: for any text there is a digest no other text collides with it in, and for any key a MAC all others differ from |
| `StockReconciliation.StockBooks.Post` | apps/core/src/modules/inventory/core/repositories/stock-event.store.ts:90-262 | a movement whose idempotency key was posted before is a replay, and one the guards forbid or its source cannot cover is refused; both change nothing; every other one is posted: the ledger still equals the fold of the events, keys stay unique, and each SKU's total moves by what entered and left, so transfers conserve it |
| `StockReconciliation.SkuStockUpdate` | apps/core/src/modules/inventory/core/repositories/stock-event.store.ts:140-262 | writing one slot moves the SKU's total by the difference and no other SKU's total |
| `StockReconciliation.NoRowsMeansAgreement` | scripts/fulfillment-v2/toolkit.ts:998-1054 | the drift query of a pair is empty exactly when ledger and event-derived quantities agree at every location and state of the pair |
| `StockReconciliation.DerivedIsTheQuery` | scripts/fulfillment-v2/toolkit.ts:1006-1023 | the quantity derived from the events is what came in minus what went out of a slot, movements of voided events left out |
| `StockReconciliation.DriftRowsExactly` | scripts/fulfillment-v2/toolkit.ts:1024-1054 | the drift rows of a pair are exactly its slots whose two quantities differ, each with both of them, slots one side does not know counted as zero |
| `StockReconciliation.FiguresAreTheSums` | scripts/fulfillment-v2/toolkit.ts:968-996 | a shortfall row carries the sums over the on-hand ledger rows and over the confirmed reservations of its pair |
| `StockReconciliation.FindLedgerDrift` | scripts/fulfillment-v2/toolkit.ts:998-1054 | the report is empty exactly when all affected pairs agree, and lists exactly the differing slots |
| `StockReconciliation.AgreeingBooksAreClean` | scripts/fulfillment-v2/toolkit.ts:998-1054 | books kept by posting movements never show drift |
| `StockReconciliation.FindReservationDrift` | scripts/fulfillment-v2/toolkit.ts:968-996 | the report names exactly the pairs with more confirmed reservations than stock on hand, with both figures |
| `StockReconciliation.QuerySum` | scripts/fulfillment-v2/toolkit.ts:968-996 | a summing query gives the sum over its rows, of the ledger or of the reservations |
| `StockReconciliation.DeletionLowersConfirmed` | scripts/fulfillment-v2/toolkit.ts:968-996 | dropping fulfilment reservations raises no pair's confirmed quantity |
| `StockReconciliation.DeletionCreatesNoShortfall` | scripts/fulfillment-v2/toolkit.ts:968-996 | deleting fulfilment reservations cannot create a reservation shortfall |
| `CleanupSchema.ClosureFindsEveryUncoveredRow` | scripts/fulfillment-v2/toolkit.ts:559-635 | no reference of the closure is uncovered exactly when no kept row refers to a covered one |
| `CleanupSchema.ClosureIsTrueExactly` | scripts/fulfillment-v2/toolkit.ts:572-580 | the closure can be trusted on every database of a schema exactly if it sees each foreign key into the cleanup tables whose source may keep rows |
| `CleanupSchema.CoveredClosureCoversEdges` | scripts/fulfillment-v2/toolkit.ts:559-627 | the closure's counts are zero exactly when every referencing row of every listed foreign key is covered |
| `CleanupSchema.ClosureCountsTruly` | scripts/fulfillment-v2/toolkit.ts:583-627 | the closure has an entry exactly for each listed foreign key into the cleanup tables, with the number of rows that refer to covered ones by it, and of the kept rows among them |
| `CleanupSchema.CoveredTablesAreCleanupTables` | scripts/fulfillment-v2/toolkit.ts:13-39 | every row a cleanup predicate matches lies in one of the cleanup tables |
| `CleanupSchema.CoveredExactly` | scripts/fulfillment-v2/toolkit.ts:629-635 | the rows a cleanup covers: every row of ten tables, the reservations for fulfilment orders, and the pending or failed outbox events of fulfilments and shipments, names compared without regard to case |
| `CleanupSchema.ClosureIsLeast` | scripts/fulfillment-v2/toolkit.ts:559-635 | what a delete removes is the least set that holds its rows and follows the cascades, at any depth |
| `CleanupSchema.DeleteFailsExactly` | scripts/fulfillment-v2/toolkit.ts:855-874 | a delete statement fails exactly if some reference objects to what it removes |
| `CleanupSchema.CascadesStayCovered` | scripts/fulfillment-v2/toolkit.ts:559-635 | with no uncovered reference, rows reached by cascades from covered rows are covered, at any depth |
| `CleanupSchema.DeleteTouchesOnlyCovered` | scripts/fulfillment-v2/toolkit.ts:855-874 | a delete step removes covered rows only, leaves every kept row as it was and every foreign key intact, whatever the delete actions |
| `CleanupSchema.UnlistedCascadeDeletesKeptRow` | scripts/fulfillment-v2/toolkit.ts:572-580 | a cascading foreign key from another schema is not in the closure, and a covered-only delete then removes a kept row: a concrete database |
| `FulfillmentCleanup.EqualStates` | scripts/fulfillment-v2/toolkit.ts:281-299 | equal printed audit states mean equal counts, evidence and coverage |
| `FulfillmentCleanup.AcceptedBodyIsHonest` | scripts/fulfillment-v2/toolkit.ts:322-340 | an accepted artifact that was sealed over an audit reads as that audit, unless the two bodies are a colliding pair |
| `FulfillmentCleanup.NoBlockersExactly` | scripts/fulfillment-v2/toolkit.ts:679-798 | an audit has no blockers exactly if nothing was shipped, every reference is covered, no tombstone is invalid and no row of the new workflow exists |
| `FulfillmentCleanup.UnmovedStateHasNoBlockers` | scripts/fulfillment-v2/toolkit.ts:679-798 | a state that has not moved since an audit without blockers has none either, unless the two state texts are a colliding pair |
| `FulfillmentCleanup.ChecksPassExactly` | scripts/fulfillment-v2/toolkit.ts:886-923 | the checks pass exactly what is `Acceptable` and `Unmoved`: maintenance on both sides, the audited cutover time, a real snapshot id, the same allowlist, the signatures asked for, no blockers; a free lock, the same database, the audited state and fingerprints, no shipping since |
| `FulfillmentCleanup.AcceptedMeansNoneUncovered` | scripts/fulfillment-v2/toolkit.ts:886-930 | once the checks before the first delete pass, no kept row refers to a covered one, no tombstone is invalid and no row of the new workflow exists |
| `FulfillmentCleanup.DeletesLeaveRemaining` | scripts/fulfillment-v2/toolkit.ts:855-874 | the twelve delete steps leave exactly the kept rows, unchanged, with every foreign key intact |
| `FulfillmentCleanup.OrderedDeletesSucceed` | scripts/fulfillment-v2/toolkit.ts:855-874 | if every foreign key between cleanup tables starts in a table deleted no later than its target, the twelve statements cannot fail once no kept row refers to a covered one, and they report the counts of the audit |
| `FulfillmentCleanup.SectionsProtectExactly` | scripts/fulfillment-v2/toolkit.ts:750-769 | the fingerprinted sections hold exactly the protected rows, written out table by table |
| `FulfillmentCleanup.ProtectedRowsAreAsAudited` | scripts/fulfillment-v2/toolkit.ts:750-769 | after a committed cleanup every protected row is as it was audited and none has appeared, unless two states of a section have one digest |
| `FulfillmentCleanup.ProtectedSectionsAreKept` | scripts/fulfillment-v2/toolkit.ts:750-769 | the deletes do not move any protected fingerprint |
| `FulfillmentCleanup.NothingCoveredRemains` | scripts/fulfillment-v2/toolkit.ts:931-966 | after the deletes every count of covered rows is zero |
| `FulfillmentCleanup.ReconciliationSurvivesDeletes` | scripts/fulfillment-v2/toolkit.ts:945-952 | stock that reconciled before the deletes, in both drift reports, reconciles after them |
| `FulfillmentCleanup.ReconciledStockPasses` | scripts/fulfillment-v2/toolkit.ts:876-966 | with the checks before the deletes passed and stock in order, a cleanup succeeds exactly if its delete statements do |
| `FulfillmentCleanup.CutoverDatabase.RunDeletes` | scripts/fulfillment-v2/toolkit.ts:855-874 | the delete loop does the steps in order and stops at the first failure, reporting it |
| `FulfillmentCleanup.CutoverDatabase.CheckStart` | scripts/fulfillment-v2/toolkit.ts:886-923 | the checks before the first delete pass exactly on acceptable options and unmoved data, and otherwise name a reason that holds |
| `FulfillmentCleanup.CutoverDatabase.DeleteAndCheck` | scripts/fulfillment-v2/toolkit.ts:925-952 | past the checks the deletes succeed exactly when `Succeeds` says so, leave the kept rows with every foreign key intact, and report what each statement deleted; a failure names a reason that holds |
| `FulfillmentCleanup.CutoverDatabase.Cleanup` | scripts/fulfillment-v2/toolkit.ts:886-966 | a failure or a dry run leaves the database as it was; success means acceptable options and unmoved data, fingerprints included; it happens exactly when these, the delete statements and both drift reports are in order; a committed cleanup leaves exactly the kept rows with every foreign key intact; a failure names a reason that holds |
| `FulfillmentCleanup.ExecutionSucceedsWhenDryRunDoes` | scripts/fulfillment-v2/toolkit.ts:876-966 | the executing run succeeds exactly when the dry run does and the artifact can be checked as signed |
| `FulfillmentCleanup.AppendsAreTolerated` | scripts/fulfillment-v2/toolkit.ts:750-769 | rows appended after the audit do not move the fingerprint of an append-only section |
| `FulfillmentCleanup.CleanupCanCommit` | scripts/fulfillment-v2/toolkit.ts:886-966 | what `Cleanup` assumes can be met: every database of unreferenced rows has surroundings, an audit and a signed artifact with which its cleanup commits |
| `CatalogSchema.ParentsComeFirst` | scripts/demo/catalog-policy.ts:60-479 | the table list is a topological order once the deferred columns are left out; deferred columns are nullable self references outside the key; reconciled tables are no one's parent |
| `CatalogSchema.TableAt` | scripts/demo/catalog-policy.ts:60-479 | the import order lists every table once |
| `CatalogNormalization.PoliciesAreTheNullableReferences` | scripts/demo/catalog-policy.ts:623-634 | the orphan policies are exactly the nullable foreign keys `assertSnapshot` knows |
| `CatalogNormalization.ExtractedTables.NullColumn` | scripts/demo/catalog-policy.ts:636-672 | one policy nulls exactly the dangling cells of its column, in place, and records them; other tables stay |
| `CatalogNormalization.ExtractedTables.NormalizeNullableOrphans` | scripts/demo/catalog-policy.ts:636-672 | the pass nulls exactly the dangling nullable references of the original tables and records them; it fails exactly on a reference that is no string |
| `CatalogNormalization.NormalizedExactly` | scripts/demo/catalog-policy.ts:636-672 | cell by cell, a reference is nulled exactly if a policy names its column and no row of the parent table has the id it gives |
| `CatalogNormalization.PolicyOrderDoesNotMatter` | scripts/demo/catalog-policy.ts:623-672 | the result is the same for every order of the policies |
| `CatalogNormalization.SecondPassIsIdle` | scripts/demo/catalog-policy.ts:636-672 | a second pass changes nothing and records nothing |
| `CatalogNormalization.NormalizedHasNoOrphans` | scripts/demo/catalog-policy.ts:636-672 | afterwards no nullable reference dangles |
| `CatalogNormalization.RecordedIsTheOrphan` | scripts/demo/catalog-policy.ts:648-668 | the record of a row and column is exactly the reference that was nulled there, or nothing |
| `CatalogNormalization.RestoreUndoesNormalization` | scripts/demo/catalog-policy.ts:636-672 | writing the recorded references back gives the original tables |
| `CatalogSnapshot.SnapshotFromRows` | scripts/demo/catalog-snapshot.ts:55-77 | a snapshot is built exactly from a read-only live source, a valid date and tables without bad references, over the normalised tables, and it is accepted |
| `CatalogSnapshot.FreshSnapshotIsAccepted` | scripts/demo/catalog-policy.ts:604-842 | `assertSnapshot` passes on a finalised snapshot exactly if source and date are in order and its structural checks on the tables pass: schema version, provenance, counts, SKU ids, hashes and nullable references are taken care of |
| `CatalogSnapshot.AcceptedSnapshotIsClosed` | scripts/demo/catalog-policy.ts:678-831 | in an accepted snapshot every reference is NULL where it may be, or names a row of the parent table |
| `CatalogSnapshot.AcceptedKeysAreUnique` | scripts/demo/catalog-policy.ts:748-762 | accepted tables have distinct keys |
| `CatalogSnapshot.UniqueSkuKeys` | scripts/demo/catalog-policy.ts:775-784 | distinct SKU keys are distinct SKU ids |
| `CatalogFallback.UsableExactly` | scripts/demo/catalog-import.ts:98-141 | a SKU is usable exactly if link, matched and resolved matching, master-variant pair, active physical undeleted version, undeleted masters and active variant are there, joined by their id columns |
| `CatalogFallback.WithTrainingFallbacks` | scripts/demo/catalog-import.ts:98-248 | the plan is the source rows as unchanged prefixes; chains go exactly to the physical SKUs without such a path, demo suppliers exactly to the live physical SKUs no supplier row names |
| `CatalogFallback.ChainsAreDated` | scripts/demo/catalog-import.ts:160-200 | master and version of a deleted SKU's chain are deleted as of the snapshot, those of a live one are not |
| `CatalogFallback.GrowPlan` | scripts/demo/catalog-import.ts:134-246 | the loop over the SKUs appends to copies of the tables, SKU by SKU |
| `CatalogFallback.VisitSku` | scripts/demo/catalog-import.ts:134-246 | one SKU adds its supplier and its chain exactly if it needs them |
| `CatalogFallback.PushChain` | scripts/demo/catalog-import.ts:156-245 | a chain adds one row to each of its six tables and nothing elsewhere |
| `CatalogFallback.PlanUsability` | scripts/demo/catalog-import.ts:98-248 | the usable SKUs of the plan are exactly the usable SKUs of the source and the live SKUs that got a chain |
| `CatalogFallback.LivePhysicalSkusAreCovered` | scripts/demo/catalog-import.ts:98-248 | in the plan every live physical SKU has a complete path of rows to sell through, and a supplier row |
| `CatalogFallback.DeletedSkusGainNothing` | scripts/demo/catalog-import.ts:140-245 | a deleted SKU has a path to sell through in the plan exactly if it had one in the source |
| `CatalogFallback.PlanKeepsKeysUnique` | scripts/demo/catalog-import.ts:98-248 | the plan keeps the keys of every table distinct |
| `CatalogFallback.PlanKeepsOneActiveVersion` | scripts/demo/catalog-import.ts:98-248 | the plan keeps at most one active version per master |
| `CatalogFallback.PlanIsClosed` | scripts/demo/catalog-import.ts:98-248 | every reference of the plan resolves in the plan or names the demo supplier |
| `CatalogTarget.RemovingRelationsKeepsReferences` | scripts/demo/catalog-import.ts:427-457 | removing any rows of the reconciled relation tables breaks no foreign key |
| `CatalogTarget.UpsertKeepsReferences` | scripts/demo/catalog-import.ts:52-67 | upserting rows whose parents are there keeps every foreign key |
| `CatalogTarget.UpsertWrites` | scripts/demo/catalog-import.ts:52-67 | after an upsert every row of the batch is there with its values in all but the deferred columns |
| `CatalogTarget.UpsertFrame` | scripts/demo/catalog-import.ts:52-67 | an upsert leaves rows of other keys alone |
| `CatalogTarget.RestoreKeepsReferences` | scripts/demo/catalog-import.ts:284-303 | restoring a deferred column keeps every foreign key |
| `CatalogTarget.RestoreWrites` | scripts/demo/catalog-import.ts:284-303 | after the restore the column holds the snapshot's value, NULL included |
| `CatalogTarget.RestoreFrame` | scripts/demo/catalog-import.ts:284-303 | the restore leaves other columns and other rows alone |
| `CatalogImport.AcceptedIsImportable` | scripts/demo/catalog-policy.ts:709-842 | `assertSnapshot` gives the importer unique keys, closed references and rows free of fixture ids |
| `CatalogImport.DropCoveredExactly` | scripts/demo/catalog-import.ts:483-498 | suppression drops exactly the demo supplier rows of SKUs some other supplier of the target covers |
| `CatalogImport.PlannedRowsAreWritable` | scripts/demo/catalog-import.ts:483-498 | after suppression the rows to write still have unique keys and closed references and hold all source rows |
| `CatalogImport.UpsertInBatches` | scripts/demo/catalog-import.ts:269-282 | upserting batch after batch is upserting all rows |
| `CatalogImport.RestoreInBatches` | scripts/demo/catalog-import.ts:284-303 | restoring batch after batch is restoring all rows |
| `CatalogImport.UnplannedRows` | scripts/demo/catalog-import.ts:725-741 | a row no planned row addresses is removed exactly if the source dropped it or its demo supplier was superseded, and otherwise changes at most by the deactivation of a superseded chain |
| `CatalogImport.PlannedRows` | scripts/demo/catalog-import.ts:725-740 | every planned row is there afterwards with all its declared values, deferred columns and NULLs included |
| `CatalogImport.ImportedChainsFollow` | scripts/demo/catalog-import.ts:459-481 | of every SKU of the source: with a chain in the plan its fallback variant and version are there, active exactly if the SKU is live; without one, neither is active |
| `CatalogImport.DemoSupplierAfterImport` | scripts/demo/catalog-import.ts:483-516 | a demo supplier is there after an import exactly if the plan needs it and the target has no other supplier for the SKU, or it was there and the record does not name it |
| `CatalogImport.StillNeededRowsStay` | scripts/demo/catalog-import.ts:427-516 | relations the source still has and demo suppliers still needed are updated in place: columns the import does not write stay |
| `CatalogImport.ReportedExactly` | scripts/demo/catalog-import.ts:576-596 | the report names exactly the source SKUs that are not in the target, or are there with another deleted flag |
| `CatalogImport.ImportIsComplete` | scripts/demo/catalog-import.ts:576-596 | after the writes no source SKU is missing and no deleted flag differs |
| `CatalogImport.ImportKeepsOneActiveVersion` | scripts/demo/catalog-import.ts:307-376 | a target with one active version per master has one after an import whose planned versions pass the collision check |
| `CatalogImport.LatestDecidesStaleness` | scripts/demo/catalog-import.ts:621-668 | comparing with the latest record rejects exactly the snapshots older than some record |
| `CatalogImport.DemoTarget.ExecuteBatchedUpsert` | scripts/demo/catalog-import.ts:269-282 | the batch loop upserts all rows; the foreign keys hold after each statement |
| `CatalogImport.DemoTarget.UpsertAll` | scripts/demo/catalog-import.ts:734-736 | table by table in import order every row finds its parents; the foreign keys hold after each statement |
| `CatalogImport.DemoTarget.RestoreDeferredColumn` | scripts/demo/catalog-import.ts:284-303 | the restore loop writes the column of all rows; the foreign keys hold after each statement |
| `CatalogImport.DemoTarget.LatestSourceImport` | scripts/demo/catalog-import.ts:621-655 | the record chosen is one of greatest extraction time |
| `CatalogImport.DemoTarget.Write` | scripts/demo/catalog-import.ts:725-741 | removal, upserts, restore and deactivation have exactly the effect `ImportedRows`, with the foreign keys intact throughout |
| `CatalogImport.DemoTarget.Apply` | scripts/demo/catalog-import.ts:723-796 | an applied import writes the rows and its record, and its completeness check cannot fire |
| `CatalogImport.DemoTarget.Prepare` | scripts/demo/catalog-import.ts:692-700 | planning and checks: stale exactly if an import is newer, colliding exactly if an alternate key is taken or an active version of the target has the master of a planned one |
| `CatalogImport.DemoTarget.Commit` | scripts/demo/catalog-import.ts:723-796 | the writes and what they report |
| `CatalogImport.DemoTarget.ImportCatalogSnapshot` | scripts/demo/catalog-import.ts:670-797 | a stale or colliding snapshot and a dry run change nothing; they are rejected exactly for those reasons; an applied import has exactly the effect `Applies` describes, leaves every SKU's fallback rows as its plan wants them, reports truly and nothing missing, and keeps one active version per master |
| `CatalogImportRuns.RelationAfterImport` | scripts/demo/catalog-import.ts:396-457 | a relation key is there after an import exactly if the snapshot has it, or it was there and the record does not name it |
| `CatalogImportRuns.ImportKeepsIndex` | scripts/demo/catalog-import.ts:396-457 | an import leaves the relation tables agreeing with its snapshot exactly if its record names every key it must drop |
| `CatalogImportRuns.ImportFrame` | scripts/demo/catalog-import.ts:425-516 | a row that neither snapshot, record nor fallback names is as it was |
| `CatalogImportRuns.RecordsOfRun` | scripts/demo/catalog-import.ts:770-796 | the records are those of past imports, the last import's among them |
| `CatalogImportRuns.RunKeepsIndex` | scripts/demo/catalog-import.ts:396-457 | over every sequence of imports with increasing extraction times the source-owned relation keys are exactly those of the last snapshot, with its values |
| `CatalogImportRuns.PreviousIsTheLastRecord` | scripts/demo/catalog-import.ts:621-655 | under increasing extraction times the record an import finds is that of the import before it, keys and demo suppliers included |
| `CatalogImportRuns.RunChainsFollow` | scripts/demo/catalog-import.ts:459-481 | after every import of a run, for each SKU of the last snapshot: a physical one without a path to sell has its fallback variant and version, active exactly if it is live; of any other, none an earlier import left is active |
| `CatalogImportRuns.RunDemoSuppliersFollow` | scripts/demo/catalog-import.ts:483-516 | over every run with increasing times the demo suppliers the target did not start with are exactly those the last import needed |
| `CatalogImportRuns.RunLeavesOtherRows` | scripts/demo/catalog-import.ts:670-797 | over every sequence of imports, rows no snapshot and no fallback ever named are untouched |
| `CatalogImportRuns.EqualTimesMayKeepDroppedRows` | scripts/demo/catalog-import.ts:640-668 | equal extraction times pass the staleness check and either record may be the latest: after an empty and a full snapshot of one time, importing an empty one may leave the dropped relations behind |
| `CatalogImportRuns.EqualTimesRun` | scripts/demo/catalog-import.ts:640-668 | the run of three committed imports of one time, from a target without records, that leaves them behind |
| `CatalogImportRuns.EqualTimesHappen` | scripts/demo/catalog-import.ts:640-668 | such a run exists on every target without records, with concrete snapshots |
| `Outbox.EligibleExactly` | libs/events/src/outbox/outbox-dispatcher.service.ts:149-280 | the acquire query selects exactly the due pending rows with tries left and, for sequenced topics, nothing unsettled ahead of them in their topic and aggregate |
| `Outbox.BatchRowsStayEligible` | libs/events/src/outbox/outbox-dispatcher.service.ts:149-199 | rows of one batch are of different sequenced aggregates, and leasing one leaves the others eligible, so a batch is the same as its rows one by one |
| `Outbox.LeaseKeepsInv` | libs/events/src/outbox/outbox-dispatcher.service.ts:149-199 | leasing by schedule or by manual resend keeps the order invariant |
| `Outbox.SendKeepsInv` | libs/events/src/outbox/outbox-dispatcher.service.ts:361-389 | a send by a worker that owns its row keeps the order of sends |
| `Outbox.FinishKeepsInv` | libs/events/src/outbox/outbox-dispatcher.service.ts:390-439 | marking a row published, or failing it with or without retries left, keeps the invariant |
| `Outbox.LeaveKeepsInv` | libs/events/src/outbox/outbox-dispatcher.service.ts:295-337 | death of a worker, expiry of its lease, closing a failed row and cleanup keep the invariant |
| `Outbox.EnqueueKeepsInv` | libs/events/src/outbox/outbox-dispatcher.service.ts:262-280 | a new row that is not keyed ahead of a held row or a send of its sequenced aggregate keeps the invariant |
| `Outbox.RunKeepsOrder` | scripts/ops/1016-7-8-predeploy-check.js:38-50 | in every orderly run with retries, crashes, expiries, resends and closures, an event of a sequenced topic is in the hands of a worker only while all earlier ones of its topic and aggregate are settled, and the sends of an aggregate follow creation time, then id |
| `Outbox.RetriesAreCounted` | libs/events/src/outbox/outbox-dispatcher.service.ts:417-433 | over every orderly run a sequenced row has as many retries as scheduled sends of it failed since it was enqueued; it is failed only once these are as many as allowed; while it waits as the first of its group it is due exactly from the time last set for it |
| `Outbox.FailedSendIsRescheduled` | libs/events/src/outbox/outbox-dispatcher.service.ts:417-444 | a failed scheduled send with tries left leaves the event pending and due exactly from the time given, still first of its group; the last one leaves it failed |
| `Outbox.ResendGoesBack` | libs/events/src/outbox/outbox-dispatcher.service.ts:305-329 | a manual resend that fails or expires goes back to the failed rows and nothing else changes |
| `Outbox.FreeTopicsDoNotWait` | libs/events/src/outbox/outbox-dispatcher.service.ts:262-280 | pending events of other topics wait for nothing but their time |
| `Outbox.NoEventIsLost` | libs/events/src/outbox/outbox-dispatcher.service.ts:361-465 | in every run, orderly or not, an enqueued event is in the table under its key until it was sent, and a published one was sent |
| `Outbox.OnlyClosedIsDiscarded` | libs/events/src/outbox/outbox-failures.service.ts:105-123 | a discarded row was closed by a person, and had failed when it was |
| `Outbox.SettledForGood` | libs/events/src/outbox/outbox-dispatcher.service.ts:381-465 | over every orderly run, an event its worker marked is published and one a person closed is discarded, from then on; a discarded one is never removed, and a removed one never comes back |
| `Outbox.OnlyPublishedIsRemoved` | libs/events/src/outbox/outbox-dispatcher.service.ts:455-465 | a row is removed exactly by the cleanup, and was published and sent when it was |
| `Outbox.HeadIsNeverStuck` | libs/events/src/outbox/outbox-dispatcher.service.ts:308-330 | the first unsettled event of a group is in work, failed for a person to act on, or due: never out of reach |
| `Outbox.LiveExpiryIsHarmful` | libs/events/src/outbox/outbox-dispatcher.service.ts:361-439 | from every state a run can reach, the expiry of a lease under a live worker, scheduled or manual, of a sequenced topic has a continuation by orderly steps that sends out of order |
| `Outbox.LateKeyIsHarmful` | libs/events/src/outbox/outbox-dispatcher.service.ts:262-280 | so has a row keyed ahead of a send, or of a row a worker has or a person may resend |
| `Outbox.OrderlyExactly` | libs/events/src/outbox/outbox-dispatcher.service.ts:262-439 | a step is orderly exactly if no continuation by orderly steps sends out of order: the two conditions forbid the harmful steps and nothing else |
| `Outbox.LostLeaseReorders` | libs/events/src/outbox/outbox-dispatcher.service.ts:308-337 | a run from the empty table with one lease that expires under its worker, and sends out of order |
| `ConcurrentMap.TakeKeepsSound` | scripts/demo/catalog-image-copy.ts:399-416 | taking an item keeps: the items taken are the first ones, each done or held by exactly one worker |
| `ConcurrentMap.CompleteKeepsSound` | scripts/demo/catalog-image-copy.ts:399-416 | finishing an item keeps the same |
| `ConcurrentMap.FinishedPoolIsDone` | scripts/demo/catalog-image-copy.ts:399-416 | when all workers are back every index was started once, in order, and is done |
| `ConcurrentMap.MovesLeaveLess` | scripts/demo/catalog-image-copy.ts:399-416 | every move of a worker leaves less to do |
| `ImageCopy.StepKeepsInv` | scripts/demo/catalog-image-copy.ts:418-456 | every step of a copy process, its death included, keeps the safety invariant |
| `ImageCopy.RunIsSafe` | scripts/demo/catalog-image-copy.ts:418-456 | wherever runs die and however workers interleave, no object or row is overwritten, and every new row has its matching object |
| `ImageCopy.RunStartsItemsOnce` | scripts/demo/catalog-image-copy.ts:399-416 | in every phase of every run each planned index is started once and done when the phase ends |
| `ImageCopy.MatchesExactly` | scripts/demo/catalog-image-copy.ts:393-397 | two objects match exactly if lengths agree and so do the checksums, or the etags where a checksum is unknown |
| `ImageCopy.StartRejectsExactly` | scripts/demo/catalog-image-copy.ts:399-427 | a process turns back at once exactly if a row it would insert is there with other values, or its concurrency is not between 1 and 64 |
| `ImageCopy.RunRespectsConcurrency` | scripts/demo/catalog-image-copy.ts:399-416 | at every moment of every run a pool has as many workers as the concurrency, or as items if these are fewer |
| `ImageCopy.InsertFits` | scripts/demo/catalog-image-copy.ts:724-788 | the insert transaction commits exactly if the rows that were there fit, and inserting twice is inserting once |
| `ImageCopy.FinishedRunsAgree` | scripts/demo/catalog-image-copy.ts:418-456 | all runs that finish, interrupted or not, leave the same target: what was there, the missing copies, the planned rows |
| `ImageCopy.OnlyCopyableFinishes` | scripts/demo/catalog-image-copy.ts:418-456 | a run can finish only on a target where every row fits and every object matches or its copy would |
| `ImageCopy.CopyableStepProgresses` | scripts/demo/catalog-image-copy.ts:418-456 | on such a target no check ever fails and every step that is no fault brings the end nearer |
| `ImageCopy.CopyableIsNeverStuck` | scripts/demo/catalog-image-copy.ts:418-456 | on such a target an unfinished process can always go on |
| `ImageCopy.RerunFinishes` | scripts/demo/catalog-image-copy.ts:418-456 | on such a target a rerun from wherever the last one died reaches the final target |
| `ImageCopy.DeathIsRepaired` | scripts/demo/catalog-image-copy.ts:418-456 | a process may die at any moment, also after a failure, without touching the target, and on such a target the rerun reaches the final one |
| `DisplayNumberBackfill.ExaminedStayInFront` | scripts/ops/backfill-sales-order-display-no.ts:52-85 | once the first pending orders are filled, their unmatched ones stand in front of the rest, so the offset of unmatched orders finds the next page |
| `DisplayNumberBackfill.NextPageIsNext` | scripts/ops/backfill-sales-order-display-no.ts:52-60 | the next page holds the next pending orders, in both modes, and a short page the last ones |
| `DisplayNumberBackfill.SalesOrders.BackfillPage` | scripts/ops/backfill-sales-order-display-no.ts:52-85 | one turn of the loop examines the next page and moves the offset accordingly |
| `DisplayNumberBackfill.SalesOrders.Backfill` | scripts/ops/backfill-sales-order-display-no.ts:43-94 | every pending order is examined once; exactly those with a known number are filled; filled and unmatched add up to the pending orders and are the same in a dry run, which changes nothing |
| `DisplayNumberBackfill.SecondRunIsIdle` | scripts/ops/backfill-sales-order-display-no.ts:12-13 | a second applying run finds nothing to fill |
| `DateOrderedPaging.BackfillByDate` | scripts/ops/backfill-sales-order-display-no.ts:43-94 | the loop with a query ordered by date alone, whose answers may list equal dates differently each time: it does a `Run`, fills exactly the examined orders with a known number, and its totals add up to the pending orders |
| `DateOrderedPaging.RunExaminesAsMany` | scripts/ops/backfill-sales-order-display-no.ts:43-94 | every run ends after examining as many orders as were pending, repetitions counted, so it misses one exactly if it repeats one |
| `DateOrderedPaging.EveryRunExaminesOnceExactly` | scripts/ops/backfill-sales-order-display-no.ts:53-83 | every run examines every pending order once, whatever the queries list, exactly if no page end lies inside orders of one date, or all orders of such a date leave the pending set when examined |
| `DateOrderedPaging.DryRunTies` | scripts/ops/backfill-sales-order-display-no.ts:79-82 | in a dry run that means exactly that no page end lies inside orders of one date |
| `DateOrderedPaging.HarmfulTieRepeats` | scripts/ops/backfill-sales-order-display-no.ts:53-58 | a run that examines an order twice, for every harmful tie |
| `DateOrderedPaging.HarmlessTotals` | scripts/ops/backfill-sales-order-display-no.ts:43-94 | without harmful ties totals and filled orders are those of the loop over a fixed row order, in both modes |
| `DateOrderedPaging.TiedDatesHideOrders` | scripts/ops/backfill-sales-order-display-no.ts:53-83 | a run of the applying loop that hides a whole batch of orders with a known number: its three pages |
| `Csv.ParseCsv` | scripts/ops/1016-40-backfill-refund-kind.ts:65-95 | the character loop computes `Parsed` |
| `Csv.ReadCell` | scripts/ops/1016-40-backfill-refund-kind.ts:65-95 | a cell reads as its value, whatever it contains and however it is spelled: bare and quoted stretches in any mixture |
| `Csv.ReadLine` | scripts/ops/1016-40-backfill-refund-kind.ts:65-95 | a line reads as its cells, whatever follows it |
| `Csv.ParseUndoesSave` | scripts/ops/1016-40-backfill-refund-kind.ts:65-95 | a file of rows, as whatever program saved it, quotes where it likes, lines ended by line feed, carriage return or both, mixed and with the last end missing, parses to the rows without the empty ones |
| `Csv.ParseUndoesWrite` | scripts/ops/1016-40-backfill-refund-kind.ts:60-95 | parsing the written file gives the rows back, all of them if each has a non-empty cell, without the empty ones otherwise |
| `Csv.OnlySpecialCellsAreQuoted` | scripts/ops/1016-40-backfill-refund-kind.ts:62-64 | the writer quotes exactly the cells with a quote, a comma or a line end in them |
| `RefundKindBackfill.KindOf` | scripts/ops/1016-40-refund-kind-rules.ts:7-12 | a kind is recognised exactly by its name |
| `RefundKindBackfill.MarkReads` | scripts/ops/1016-40-refund-kind-rules.ts:7-12 | a cell reads as a kind exactly if it is the name of the kind with white space around it, and as no mark exactly if it is all white space |
| `RefundKindBackfill.CheckRows` | scripts/ops/1016-40-backfill-refund-kind.ts:116-130 | the rows are checked in order: blank ones skipped, the first unknown kind fails all |
| `RefundKindBackfill.Refunds.FillAll` | scripts/ops/1016-40-backfill-refund-kind.ts:132-140 | the transaction fills refunds without a kind, the first assignment counting, and counts the changed ones |
| `RefundKindBackfill.Refunds.ApplyFromCsv` | scripts/ops/1016-40-backfill-refund-kind.ts:110-142 | an unsound file changes nothing; a sound one fills exactly the refunds without a kind and overwrites none |
| `RefundKindBackfill.ReviewedFileAssigns` | scripts/ops/1016-40-backfill-refund-kind.ts:110-142 | a reviewed file, whatever its reasons contain and however it was saved, assigns the kinds left or put in and skips the rows whose kind was removed |
| `RefundKindBackfill.UnknownMarkFails` | scripts/ops/1016-40-backfill-refund-kind.ts:116-130 | the first mark that is neither empty nor a kind makes the whole file unsound, and is reported |
| `RefundKindBackfill.ShortRowsAreSkipped` | scripts/ops/1016-40-backfill-refund-kind.ts:119-125 | rows too short for an id or a kind are skipped |
| `RefundKindBackfill.UneditedFileFillsCandidates` | scripts/ops/1016-40-backfill-refund-kind.ts:110-142 | a file written from candidates and not edited, saved again or not, assigns every candidate its kind |
| `SqlComments.TokensLexTheText` | scripts/ops/batch-deploy-preflight.lib.ts:110-134 | every text divides into strings, comments and single characters that fit |
| `SqlComments.TokensAreTheOnlyLexing` | scripts/ops/batch-deploy-preflight.lib.ts:110-134 | the division is unique |
| `SqlComments.StripComments` | scripts/ops/batch-deploy-preflight.lib.ts:110-134 | the scanning loop computes `Stripped`: every comment one space, the rest verbatim |
| `SqlComments.StrippingKeepsTokens` | scripts/ops/batch-deploy-preflight.lib.ts:109-134 | token by token the output is the input, with every comment a space: strings verbatim and in order, no comment left |
| `SqlComments.StrippingIsIdempotent` | scripts/ops/batch-deploy-preflight.lib.ts:110-134 | stripping twice is stripping once |
| `MigrationJournal.StatusPartitions` | scripts/ops/batch-deploy-preflight.lib.ts:168-178 | every entry is exactly one of applied, pending and skipped |
| `MigrationJournal.MigrateDoesItsWork` | scripts/ops/batch-deploy-preflight.lib.ts:163-178 | a run of the migrator empties pending, leaves skipped unchanged and adds only marks above the latest |
| `MigrationJournal.RunKeepsInv` | scripts/ops/batch-deploy-preflight.lib.ts:163-178 | what any interleaving of joins and runs keeps |
| `MigrationJournal.UnexecutedIsPendingOrLate` | scripts/ops/batch-deploy-preflight.lib.ts:163-167 | an entry was executed, or is pending, or joined at or below the latest mark and never runs |
| `MigrationJournal.SkippedExactly` | scripts/ops/batch-deploy-preflight.lib.ts:163-178 | an entry is skipped exactly if it joined at or below the latest mark, under a mark no applied entry carried |
| `MigrationJournal.StatusIsCompleteExactly` | scripts/ops/batch-deploy-preflight.lib.ts:163-178 | every unexecuted entry is reported exactly if no late entry shares the mark of an applied one |
| `MigrationJournal.SkippedForever` | scripts/ops/batch-deploy-preflight.lib.ts:163-167 | a skipped entry stays skipped and unexecuted for good |
| `MigrationJournal.LateTwinIsNotReported` | scripts/ops/batch-deploy-preflight.lib.ts:168-178 | an entry that joined late under the mark of an applied one is neither executed nor pending nor skipped: a concrete run |
| `MigrationJournal.EqualVersionsAgree` | scripts/ops/batch-deploy-preflight.lib.ts:186-194 | two databases compare as equal exactly if they hold the same marks; then every journal has the same status on both |
| `PayPeriods.LastDayIsTheLast` | packages/domain-types/attendance-wage.ts:123-125 | day 0 of the next month is the last day of the month, leap years and negative month indices included |
| `PayPeriods.DaysBeforeInClosedForm` | packages/domain-types/attendance-wage.ts:121-137 | the day count has 365 days a year and one more in each leap year, month by month, in closed form |
| `PayPeriods.EpochDay` | packages/domain-types/attendance-wage.ts:121-137 | the first day of 1970 is day 719528 of the count |
| `PayPeriods.TwoDigitYears` | packages/domain-types/attendance-wage.ts:123-137 | a day of a year below 100 is that of the 1900s, for whatever is computed of it |
| `PayPeriods.PeriodByMonthNumber` | packages/domain-types/attendance-wage.ts:138-164 | a period runs from the day after one closing date to the next |
| `PayPeriods.PaydayIsInItsMonth` | packages/domain-types/attendance-wage.ts:150 | a payday the month is too short for moves to its last day and never leaves the month |
| `PayPeriods.PeriodLength` | packages/domain-types/attendance-wage.ts:121-164 | every period lasts 28 to 31 days |
| `PayPeriods.PeriodsTileExactly` | packages/domain-types/attendance-wage.ts:121-164 | the next month's period starts the day after this one ends, except exactly from December of year 99 to January of year 100 |
| `PayPeriods.EveryDayHasOnePeriod` | packages/domain-types/attendance-wage.ts:121-164 | from year 100 on every day lies in exactly one period |
| `PayPeriods.ParseMonth` | packages/domain-types/attendance-wage.ts:121-148 | only four digits, a dash and a month from 01 to 12 are read |
| `PayPeriods.PayPeriodForExactly` | packages/domain-types/attendance-wage.ts:138-164 | a period is computed exactly for the texts of months, and is the period of that month |
| `MarkerBackfill.ShippedDecisionStays` | scripts/events/outbox-marker-backfill.ts:104-163 | a fully shipped order is found in the shared table afterwards exactly if it was found in either table before |
| `MarkerBackfill.ShippedRunsAreSafe` | scripts/events/outbox-marker-backfill.ts:129-156 | a second run adds nothing and no run makes a row pending |
| `MarkerBackfill.MissingIsInsertedExactly` | scripts/events/outbox-marker-backfill.ts:107-171 | the dry run's missing count is what gets inserted exactly if the missing rows have distinct keys |
| `MarkerBackfill.ShippedRowsStand` | scripts/events/outbox-marker-backfill.ts:89-156 | every row added for a shipped order stands for a shipped row of the old table: its topic, key and payload, published, with both of its times |
| `MarkerBackfill.FailedDecisionStays` | scripts/events/outbox-marker-backfill.ts:186-238 | the same decision on failed intents, by aggregate |
| `MarkerBackfill.FailedRunsAreSafe` | scripts/events/outbox-marker-backfill.ts:204-232 | a second run adds nothing although the rows carry no key |
| `MarkerBackfill.MissingFailedAreInserted` | scripts/events/outbox-marker-backfill.ts:186-240 | for failed intents the missing count is what gets inserted |
| `MarkerBackfill.FailedRowsStand` | scripts/events/outbox-marker-backfill.ts:186-232 | every row added for a failed intent stands for the earliest one of its aggregate |
| `MarkerBackfill.RejectedDecisionStays` | scripts/events/outbox-marker-backfill.ts:242-286 | the same decision on rejected mandates, by payload key |
| `MarkerBackfill.RejectedRunsAreSafe` | scripts/events/outbox-marker-backfill.ts:258-284 | a second run adds nothing and no run makes a row pending |
| `MarkerBackfill.RejectedRowsStand` | scripts/events/outbox-marker-backfill.ts:258-284 | every row added for a rejected mandate stands for the earliest one of its payload key, which becomes its idempotency key |
| `MarkerBackfill.EarliestKeepsGroups` | scripts/events/outbox-marker-backfill.ts:208-229 | DISTINCT ON keeps exactly one row of every group, and no row of the group is earlier |
| `MarkerBackfill.SharedOutbox.BackfillCore` | scripts/events/outbox-marker-backfill.ts:107-172 | decisions on shipped orders stay, pending rows stay, rows are only added, and only when executing |
| `MarkerBackfill.SharedOutbox.BackfillFailedIntents` | scripts/events/outbox-marker-backfill.ts:186-240 | the same for failed intents, with missing equal to inserted |
| `MarkerBackfill.NothingMissingExactly` | scripts/events/outbox-marker-backfill.ts:242-257 | the dry run reports no rejected mandate as missing exactly if the shared table answers for all of them |
| `MarkerBackfill.SharedOutbox.BackfillRejectedMandates` | scripts/events/outbox-marker-backfill.ts:242-286 | the same for rejected mandates, with the counts of legacy, present and missing rows |
| `Carousel.ActivePageOf` | packages/time-sale-ui/index.tsx:1456-1466 | the page nearest to the scroll position, the first of equally near ones, or the last once the end is reached |
| `Carousel.PageStartsAt` | packages/time-sale-ui/index.tsx:1451-1453 | the page starts are the offsets of every so-manieth card, and how many there are |
| `Carousel.PageStartsAtColumn` | packages/time-sale-ui/index.tsx:1451-1476 | a page starts its step of columns after the one before it, and never past the last columns in view |
| `Carousel.OptionsPlaceCards` | packages/time-sale-ui/index.tsx:1572-1578 | with more cards than rows, and rows asked for, cards stand in that many rows, otherwise in one; a page moves by the slide group, or by one column |
| `Carousel.PagesAre` | packages/time-sale-ui/index.tsx:1468-1476 | the distinct clamped starts are the starts up to the first clamped one |
| `Carousel.DotsCountPagesExactly` | packages/time-sale-ui/index.tsx:1572-1578 | the dot formula counts the distinct page starts exactly if some start reaches the end of the scroll range, or there are no cards |
| `Carousel.DotsCountPages` | packages/time-sale-ui/index.tsx:1572-1578 | in particular when a page moves no further than the columns in view |
| `Carousel.OptionsDotsCountPages` | packages/time-sale-ui/index.tsx:1571-1578 | so for every number of cards and with or without rows, if the slide group is at most the columns |
| `Carousel.TooManyDots` | packages/time-sale-ui/index.tsx:1572-1578 | six cards in one row, one in view, pages of three: three dots for two pages |
| `Carousel.ScrollReadsBack` | packages/time-sale-ui/index.tsx:1451-1476 | scrolling to the start of a page is read back as that page |
| `Carousel.NextTargetIsAPage` | packages/time-sale-ui/index.tsx:1590-1596 | moving on goes to the next page, from the last one to itself |
| `Carousel.WalkVisitsEveryPage` | packages/time-sale-ui/index.tsx:1590-1599 | stepping on visits the pages one by one and stays on the last |

## Left out

- Database drivers, Kafka, S3, ECS, git, command lines and console reports: their answers are parameters or the state itself.
- The digits JavaScript chooses for a double: a number is given by its shortest decimal digits and exponent; its text is modelled.
- Objects with a `toJSON` of their own, and values `JSON.stringify` refuses, such as big integers.
- White space between the tokens of a JSON text: the printer writes none.
- SHA-256, HMAC and the derived ids: abstract functions.
- Replay safety, shipping evidence and database identity of an audit: they enter as observations of the database; stock ledger and events are read from their tables by abstract functions.
- RESTRICT and NO ACTION at statement time are one conservative check, and multi-column foreign keys refer by whole keys.
- NULLs in the columns of the cleanup predicates: those columns are NOT NULL.
- The order of recorded orphan references, which follows the locale, and the joining of key columns into one text; sorting of SKU ids before they are hashed.
- Names, prices and codes of fallback rows: one column stands for the columns no rule looks at.
- Columns the importer adds for the target only (warehouse, holder, locations), and the time stamps of deactivation.
- The alternate-key collision check of the import, except for active versions per master: an oracle on target and planned rows.
- Import records of other sources: the records modelled are those of one source, as the query selects them.
- Reconciled deletes and the deactivation are one statement each; any split of them keeps the foreign keys by the same lemmas.
- Suppliers of a SKU after a whole import, the demo supplier apart: suppression reads the target before reconciliation deletes rows, so that one is left is stated for the plan only.
- Figures of the import report that only count: rows removed, chains deactivated, SKUs imported, images.
- Which pending rows a dispatcher leaves for later (batch limit, pause gate, partition order): any eligible row may be leased.
- Wall-clock progress of the outbox: times are parameters of the steps.
- Other writers during an image copy, and contents beyond the fingerprint of an object.
- Planning and classification of images: the plan is the input of the copy.
- Regular expressions that classify migrations, subsequences of unique columns, the judgement of deployments and build machines: flat rules over stripped text.
- Dollar-quoted strings, quoted identifiers and nested comments of PostgreSQL: the scanner knows none of them either.
- The answers of the batch-custody and inbound-origin guards of the stock books: a parameter of `Post`.
- TypeScript rendering, measurement and animation of the carousel: cards have one integer pitch of at least 3.
- Printing of pay dates as text, and validation of the calendar's ranges.
- Ids of refunds that PostgreSQL would refuse to cast: ids are texts.
- Outbox.RunKeepsOrder: holds for orderly runs; `OrderlyExactly` says that no harmless step is excluded.
- CatalogImportRuns.RunKeepsIndex: holds for strictly increasing extraction times; equal times are decided by `ImportKeepsIndex`.
