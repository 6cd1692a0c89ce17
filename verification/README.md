# Verification of the CorvMC data scripts

CorvMC runs a music collective's site on a SQLite database. This project models the parts of the
repository that carry real state and loops, and proves what they are for:

- **Band ownership** (`BandOwners.dfy`, `IdMap.dfy`, `BandMigration.dfy`). Who owns a band is stored
  twice, in `band.owner_id` and in the `band_member` row with role `owner`. A one-off script repairs
  drift in one batch; the Postgres migrator repairs it row by row. Both are modelled over mutable
  tables, with and without the single-owner index, and proved to leave the same relation.
- **Reservation payments** (`ReservationPayment.dfy`, `ReservationMigration.dfy`). One legacy charge
  is chosen per reservation, turned into five payment fields, and mirrored into `payment_cache`.
- **Duplicate field names** (`DuplicateFieldNames.dfy`). A lint visitor with a stack of name maps
  against a definition over the element tree.
- **Help articles** (`HelpSync.dfy`). Upserts and an orphan sweep over two tables, and who a category
  is shown to.
- **Fees, closures, table clearing, paging, recurrence rules, profile links, hours** (`Fees.dfy`,
  `Closures.dfy`, `ResetDb.dfy`, `Paging.dfy`, `RecurrenceRules.dfy`, `ProfileLinks.dfy`,
  `VolunteerHours.dfy`). `Decimal.dfy` and `Wrappers.dfy` are shared helpers.

Scripts that change tables or fill maps step by step are classes and methods with loops. Each method
is specified by a function on values, and the lemmas are about that function. `dafny verify
dfyconfig.toml` checks everything.

## Where the code does less than its comments or its readers expect

Each has its exact condition as an if-and-only-if, and inputs for which it fails.

- The backfill's header says a band with a rival owner row is reported. Whether a live band is listed
  depends only on its recorded owner; one with two active owners can pass unlisted, and a run with
  nothing else to do then exits 0 (`LiveBandListedIff`, `ContestedBandCanPassUnlisted`,
  `Database.Backfill`).
- The loop and the backfill agree from any table exactly when, of the pairs in need of repair, both see
  the same; over a band with a demoted owner they differ once it is deleted or has a malformed id
  (`LoopAgreesWithBackfillIff`, `SameBandsAgreeIff`, `DemotedOwnerAgreesIff`, `DeletedBandDiffers`).
- The app's reader shows a paid, cancelled booking as refunded, and a refunded booking that was not
  cancelled as comped or credit-paid (`AppReadingFaithfulIff`, `PaidCancelledShowsRefunded`,
  `RefundedConfirmedShowsComped`).
- The comment above the mirror speaks of real-money payments; the code also caches a voided charge
  with a positive net amount (`EveryPaymentLinkedIff`, `VoidedMoneyIsUnlinked`).
- The charge query has no order. Every order of its rows gives the same choice exactly when the
  highest-ranked rows of each reservation are equal (`ChoiceIgnoresOrderIff`,
  `TiedChargesMakeOrderMatter`).
- Cents are conserved exactly when record ids are distinct, and the two tables agree exactly when under
  each record none but the first reservation keeps its link; one Stripe session over two bookings
  breaks both (`CentsConservedIff`, `LinkedRowsAgreeIff`, `SharedRecordDisagrees`).
- Amount normalisation recovers plain cents only up to 10000 and scaled cents only above 100
  (`NormalizeRecoversIff`, `LargePlainAmountIsMisread`).
- The help sync throws half-way exactly when a file's slug belongs to an editor-authored article, and
  leaves behind what it had written (`SyncCompletesIff`, `ThrownSyncLeaves`, `EditorSlugStopsSync`).
- A role the help service does not know can hide a category from everybody, depending on file order
  (`CategoryAdmissionIff`, `AdmissionInEveryOrderIff`, `UnknownRoleMakesOrderMatter`).
- The comment above the derived category role keeps a mixed category visible to members. The role is
  derived from the files alone, so a staff-only file hides a category from members who can open an
  editor's article in it (`SyncedCategoryListsWhatIsOpenIff`, `StaffFileHidesMembersArticle`).
- A list of two or more weekdays in a rule is read as none, and the ordinal before a weekday is never
  read (`WeekdayListReadIff`, `PrintedOrdinalKeptIff`, `OrdinalFromEndIsLost`).
- A closure inside one second passes the handler's test and is stopped by the table's check alone
  (`TableAloneRejectsIff`, `HalfSecondIsRefused`).

## Assumptions

- Random UUIDs are a sequence of draws that are new and pairwise different; the lemmas that need this
  say so with a `Fresh…` predicate.
- Fee rates are the exact fractions 29/1000 and 971/1000, not doubles; amounts, credits and hours are
  exact rationals; `Math.round` rounds halves up.
- Dates are integers: whole seconds in the migration and milliseconds in the closure forms. An
  unreadable date is its own case in the closure forms.
- `toLowerCase` is modelled on ASCII letters, which decides every comparison the code makes.
- The migration runs with foreign keys off, as the script sets them
  (scripts/migrate-from-postgres.ts:133); with them on, caching the payment of a dropped reservation
  would throw. The help tables hold to theirs: every article's category is stored.
- A query's result order is an input: the band table is listed in slug order, and paged lists do not
  change between requests.

## Model

| member | source | states |
|---|---|---|
| DuplicateFieldNames.ResolveFieldName | eslint-rules/no-duplicate-field-names.js:12-53 | the first `name` or `field` attribute decides; without one, or when it gives no static name, there is no field |
| DuplicateFieldNames.FieldOfIff | eslint-rules/no-duplicate-field-names.js:12-103 | a node is the field `n` iff it is a component, neither form nor `Select`, and its first `name` or `field` attribute is written in one of the three static shapes |
| DuplicateFieldNames.FieldsLieInForms | eslint-rules/no-duplicate-field-names.js:83-84 | every field that counts lies in the form around the subtree or in one the subtree opens; outside forms there is none |
| DuplicateFieldNames.WalkAddsOccurrences | eslint-rules/no-duplicate-field-names.js:76-117 | simulation: passing any subtree moves the stack and reports from the fields seen before to those seen after, open forms unchanged |
| DuplicateFieldNames.WalkReportsDuplicates | eslint-rules/no-duplicate-field-names.js:67-119 | for every tree the visitor reports exactly the fields whose name an earlier field of the same nearest form has, in document order, and the stack ends empty |
| DuplicateFieldNames.SilentIffDistinct | eslint-rules/no-duplicate-field-names.js:60-65 | no report iff within each form all field names differ |
| DuplicateFieldNames.ReportsAreRepeats | eslint-rules/no-duplicate-field-names.js:105-113 | reported are exactly the fields that share form and name with an earlier one |
| DuplicateFieldNames.SecondFieldIsReported | eslint-rules/no-duplicate-field-names.js:34-39 | two fields bound to one property in a form: exactly the second is reported |
| DuplicateFieldNames.Visitor.SvelteElement | eslint-rules/no-duplicate-field-names.js:77-114 | the enter handler makes the specified transition of stack and reports |
| DuplicateFieldNames.Visitor.SvelteElementExit | eslint-rules/no-duplicate-field-names.js:115-117 | the exit handler pops exactly at form tags |
| DuplicateFieldNames.Lint | eslint-rules/no-duplicate-field-names.js:67-119 | a fresh visitor over a template returns exactly the duplicate fields |
| BandOwners.TargetsOfQuery | scripts/backfill-band-owners.ts:80-120 | the rows not skipped are exactly the live, well-formed bands without rival owner whose recorded owner is no active owner |
| BandOwners.IsUuidShapedIff | scripts/backfill-band-owners.ts:43 | a well-formed id has 36 characters, each a hexadecimal digit in either case or a dash |
| BandOwners.Partition | scripts/backfill-band-owners.ts:105-120 | the loop sorts the rows into the three lists, keeping query order |
| BandOwners.PlanIsIndependent | scripts/backfill-band-owners.ts:138-149 | no two planned statements concern one band or insert one id |
| BandOwners.ExecuteAllRepairs | scripts/backfill-band-owners.ts:138-168 | independent enabled statements all succeed and repair exactly their pairs |
| BandOwners.BackfillRepairs | scripts/backfill-band-owners.ts:138-168 | no planned statement violates a constraint, indexed or not; targets become active owner rows, every other row is unchanged |
| BandOwners.BackfillKeepsRowIds | scripts/backfill-band-owners.ts:144-148 | no two rows end with one id |
| BandOwners.BackfilledBandsHaveOneOwner | scripts/backfill-band-owners.ts:4-13 | each promoted or inserted band ends with its recorded owner as sole owner row, active |
| BandOwners.BackfillConverges | scripts/backfill-band-owners.ts:22-26 | after the repair the query returns exactly the skipped rows, unchanged; a second run plans nothing |
| BandOwners.LiveBandListedIff | scripts/backfill-band-owners.ts:22-26 | a live band is listed iff its recorded owner is no active owner; with a rival owner its line is skipped, never repaired |
| BandOwners.ContestedBandCanPassUnlisted | scripts/backfill-band-owners.ts:24-26 | a band with two active owner rows that the query does not list |
| BandOwners.RepairKeepsDuplicates | scripts/backfill-band-owners.ts:113-114 | a repair of uncontested bands neither makes nor removes a band with two owner rows |
| BandOwners.DuplicateOwnersAreTwo | scripts/backfill-band-owners.ts:172-174 | the grouped count lists exactly the bands with two owner rows |
| BandOwners.VerificationMeaning | scripts/backfill-band-owners.ts:171-183 | after the repair the duplicate check is clean iff no band started with two owner rows |
| BandOwners.Database.Backfill | scripts/backfill-band-owners.ts:92-184 | the whole script: which outcome, the table it leaves, as many announced statements as targets in a dry run, the number of bands with two owners, and exit code 0 after a commit iff nothing drifted, or something was planned and no band had two owners |
| IdMap.MapIdIsStable | scripts/migrate-from-postgres.ts:88-93 | mapping again returns the same id and changes nothing; other keys keep theirs |
| IdMap.MapIdStaysInjective | scripts/migrate-from-postgres.ts:88-93 | distinct (table, key) pairs keep distinct ids |
| BandMigration.InsertedRowsAreLegacy | scripts/migrate-from-postgres.ts:612-631 | inserting members overwrites no row; each new row is a legacy member's, under its mapped id, active, with its role or `member` |
| BandMigration.MembersAreAccountedFor | scripts/migrate-from-postgres.ts:612-631 | each legacy member of a known band and user is in the table when its loop ends and when the phase ends, unless its mapped id is on another row or, under the index, another user's owner row keeps an owner out |
| BandMigration.PhaseKeepsRowIds | scripts/migrate-from-postgres.ts:612-688 | no two rows end with one id |
| BandMigration.ReconcileBandRepairs | scripts/migrate-from-postgres.ts:646-688 | one step repairs the band's owner pair iff it needs it and no one else holds owner, and counts it then |
| BandMigration.ReconcileRepairs | scripts/migrate-from-postgres.ts:645-688 | the loop repairs exactly the pairs in need and `ownersFixed` is their number |
| BandMigration.ReconcileOrderIsIrrelevant | scripts/migrate-from-postgres.ts:645-688 | any order of the bands gives the same relation and count |
| BandMigration.PhaseMakesReady | scripts/migrate-from-postgres.ts:546-631 | before the reconcile loop every band is mapped to an id of its own |
| BandMigration.LoopAgreesWithBackfillIff | scripts/migrate-from-postgres.ts:633-688 | from any table and any bands either program sees, both leave the same (band, user) to (role, status, position) relation iff of the pairs in need of repair they see the same |
| BandMigration.SameBandsAgreeIff | scripts/migrate-from-postgres.ts:633-688 | where both see the same bands, that is iff every band in need of repair is live with well-formed ids |
| BandMigration.DemotedOwnerAgreesIff | scripts/migrate-from-postgres.ts:645-688 | over one band whose owner's row is no active owner's, the two agree iff the band is live and both its ids are well-formed |
| BandMigration.DeletedBandDiffers | scripts/migrate-from-postgres.ts:645-688 | one band with a demoted owner and well-formed ids: the two agree while it is live and differ once it is deleted |
| BandMigration.SecondRunIsFixedPoint | scripts/migrate-from-postgres.ts:546-688 | a second run on the same snapshot changes neither ids nor rows and fixes no owner |
| BandMigration.Migration.MapId | scripts/migrate-from-postgres.ts:88-93 | fills the map in place as specified and returns the stored id |
| BandMigration.Migration.InsertAllMembers | scripts/migrate-from-postgres.ts:613-631 | the member loop computes the specified ids and rows |
| BandMigration.Migration.ReconcileOwners | scripts/migrate-from-postgres.ts:645-688 | the reconcile loop computes the specified rows and count |
| BandMigration.Migration.Run | scripts/migrate-from-postgres.ts:546-688 | the three loops compose to the specified phase |
| ReservationPayment.NormalizesToNearest | scripts/lib/reservation-payment.ts:53-57 | an amount becomes the nearest whole number of cents, halves up, a scaled one after division; an unreadable one is none |
| ReservationPayment.PositiveAmountIff | scripts/lib/reservation-payment.ts:53-57 | a charge counts as money iff its amount is at least half a cent |
| ReservationPayment.StatusIgnoresCase | scripts/lib/reservation-payment.ts:139 | refunded and cancelled are recognised in any case |
| ReservationPayment.RecordIdCases | scripts/lib/reservation-payment.ts:88-92 | a present intent is the record id, else a present session; cash charges share an id iff they are one charge |
| ReservationPayment.CashDueIff | scripts/lib/reservation-payment.ts:113-186 | no cash is ever left due, and it is settled iff the booking is confirmed or completed, or money or credits stand |
| ReservationPayment.CreditsUsedIff | scripts/lib/reservation-payment.ts:141-182 | on a charge, credits are used iff it has free hours and was not voided or refunded in nothing; two blocks make an hour |
| ReservationPayment.UnchargedCreditsIff | scripts/lib/reservation-payment.ts:123-136 | without a charge, iff the booking is settled, covered and has a length |
| ReservationPayment.MoneyIsDated | scripts/lib/reservation-payment.ts:143-171 | moved money is dated by the charge, else by the booking |
| ReservationPayment.NormalizeRecoversIff | scripts/lib/reservation-payment.ts:48-57 | exactly which amounts each of the two legacy encodings is recovered for |
| ReservationPayment.LargePlainAmountIsMisread | scripts/lib/reservation-payment.ts:48-57 | 10001 plain cents come back as 100 |
| ReservationPayment.FieldsDetermineHistory | scripts/lib/reservation-payment.ts:94-186 | where moved money has a time, equal fields come from equal settlements, covered hours and payment records |
| ReservationPayment.DocumentedReadingRecoversIff | scripts/lib/reservation-payment.ts:5-9 | the documented model reads back the legacy settlement iff moved money has a time |
| ReservationPayment.ReadersDifferOnCashDue | src/lib/utils/reservation-actions.ts:74-79 | of a live booking with nothing returned the app reads what the documented model does, except where cash is owed |
| ReservationPayment.AppReadingFaithfulIff | src/lib/utils/reservation-actions.ts:60-80 | exactly when the app's reader shows the legacy settlement of a derived reservation |
| ReservationPayment.PaidCancelledShowsRefunded | src/lib/utils/reservation-actions.ts:69-73 | a paid booking cancelled without a refund is shown as refunded |
| ReservationPayment.RefundedConfirmedShowsComped | src/lib/utils/reservation-actions.ts:69-78 | a refunded booking that was not cancelled is shown as comped |
| ReservationPayment.RecordLinkedIff | scripts/lib/reservation-payment.ts:104-186 | a record id is set iff normalised net is positive and the charge not cancelled; never cash owed, never both paid and refunded |
| ReservationMigration.ChoosesTop | scripts/migrate-from-postgres.ts:832-847 | a reservation keeps a charge iff it has one: its own, the maximum by money, then time, then position |
| ReservationMigration.KeptChargeIsLatest | scripts/migrate-from-postgres.ts:828-847 | the kept charge is money if any is, and none of its kind has a later time, read as paid, else updated, else created, else 0 |
| ReservationMigration.ChoiceIgnoresOrderIff | scripts/migrate-from-postgres.ts:814-847 | every permutation of the rows gives the same choice iff the highest-ranked rows of each reservation are equal |
| ReservationMigration.TiedChargesMakeOrderMatter | scripts/migrate-from-postgres.ts:814-847 | of two charges paid in the same second the one that arrives last is kept |
| ReservationMigration.ChooseCharges | scripts/migrate-from-postgres.ts:832-847 | the selection loop computes the specified choice |
| ReservationMigration.CoveredBookingUsesItsLength | scripts/migrate-from-postgres.ts:905-916 | a confirmed booking without a charge uses credits iff the membership covers it, for its length in seconds over 3600 |
| ReservationMigration.CacheRowIsDated | scripts/migrate-from-postgres.ts:958-960 | a cached payment is dated by its charge, else by the booking; a refunded one, in any case of the status, on that date |
| ReservationMigration.LinkedRecordsAreCached | scripts/migrate-from-postgres.ts:903-963 | every reservation that links a record finds a cached payment under it |
| ReservationMigration.ReservationWrittenIff | src/lib/server/db/schema/reservation.ts:105-116 | a reservation is dropped iff an earlier one is a live instance of the same series at the same start |
| ReservationMigration.LinkedRowsAgreeIff | scripts/migrate-from-postgres.ts:917-962 | all linked rows agree on owner, refunded state, refund time and payment time iff, of the reservations with money under one record, none but the first keeps its link |
| ReservationMigration.SharedRecordDisagrees | scripts/migrate-from-postgres.ts:945-963 | two bookings on one record: the second finds the first one's payment, and 2000 of the 4000 cents are lost |
| ReservationMigration.CentsConservedIff | scripts/migrate-from-postgres.ts:941-963 | cached cents never exceed the money of the chosen charges, and equal it iff record ids are distinct |
| ReservationMigration.CashIsConserved | scripts/lib/reservation-payment.ts:91 | where every charge with money is cash and charges and bookings have distinct ids, no cent is lost |
| ReservationMigration.EveryPaymentLinkedIff | scripts/migrate-from-postgres.ts:917-963 | every cached payment is linked iff under each record some reservation with money has a charge not voided and a slot not taken earlier |
| ReservationMigration.VoidedMoneyIsUnlinked | scripts/migrate-from-postgres.ts:941-963 | a voided charge with money is cached as completed and linked by no reservation |
| ReservationMigration.SecondWriteChangesNothing | scripts/migrate-from-postgres.ts:917-963 | from any tables, writing the same reservations again changes neither |
| ReservationMigration.WriteReservations | scripts/migrate-from-postgres.ts:874-964 | the loop writes the specified rows, up to the first insert that throws |
| ReservationMigration.MigrateReservations | scripts/migrate-from-postgres.ts:832-964 | selection and loop together: which row makes the insert throw; links resolve; cents are conserved iff record ids are distinct, and always for cash |
| HelpSync.SyncCompletesIff | scripts/sync-help-articles.ts:122-168 | a sync completes iff no file slug belongs to an editor-authored article |
| HelpSync.EditorSlugStopsSync | scripts/sync-help-articles.ts:134-165 | a file whose slug an editor's article holds stops the sync |
| HelpSync.ThrownSyncLeaves | scripts/sync-help-articles.ts:96-176 | a sync that throws has given all categories their roles, written the files before the first taken slug, and removed nothing |
| HelpSync.ArticlesAreWritten | scripts/sync-help-articles.ts:129-168 | each file slug ends with its last file's content; `published`, id and creation time survive; new rows are drafts |
| HelpSync.SyncedArticleDefaults | scripts/sync-help-articles.ts:148-164 | a file that names no role is stored as `member`, one without sort order as 0; what it names is stored as named |
| HelpSync.SyncKeepsArticleIdsDifferent | scripts/sync-help-articles.ts:122-176 | no two articles end with one id |
| HelpSync.CategoryNameAt | scripts/sync-help-articles.ts:111 | dashes become spaces and each word starts with a capital, letter by letter |
| HelpSync.CategorySlugsKeepOrder | scripts/sync-help-articles.ts:71-78 | categories are taken in order of first appearance |
| HelpSync.NewCategoryIsPlaced | scripts/sync-help-articles.ts:111-119 | a new category is named after its slug and sorted by first appearance |
| HelpSync.NewCategoryIsSorted | scripts/sync-help-articles.ts:96-119 | a new category is sorted by the number of categories among the files before its first |
| HelpSync.SyncMirrorsFiles | scripts/sync-help-articles.ts:122-176 | static slugs equal file slugs, rows mirror files, `published` survives, editor rows are untouched |
| HelpSync.SecondSyncOnlyTouches | scripts/sync-help-articles.ts:96-176 | a second sync changes nothing but `updatedAt` |
| HelpSync.MinRoleIsMostPermissive | scripts/sync-help-articles.ts:81-94 | the fold yields one of the category's roles, none more permissive |
| HelpSync.CategoryAudience | scripts/sync-help-articles.ts:45-120 | by the sync's levels a category reaches a role iff one of its files does, in any file order |
| HelpSync.DerivedRoleIsFirstOpen | scripts/sync-help-articles.ts:87-94 | a category takes the role of its first file outside admin, staff and sustaining, if there is one |
| HelpSync.CategoryRoleOfOpenFile | scripts/sync-help-articles.ts:87-120 | the stored role is the one named by the first file outside admin, staff and sustaining, `member` if that names none |
| HelpSync.CategoryRoleOfPrivilegedFiles | scripts/sync-help-articles.ts:47-120 | without such a file it is sustaining, else staff, else admin, whichever some file names |
| HelpSync.AdmitsIff | src/lib/server/help/help-service.ts:8-15 | which of the four roles may read what, role by role |
| HelpSync.CategoryAdmissionIff | src/lib/server/help/help-service.ts:8-52 | by the service's reading a category admits as its files do iff that first file names `member`, or there is none, or no file names a known role |
| HelpSync.AdmissionInEveryOrderIff | src/lib/server/help/help-service.ts:8-52 | it does so for every order of the files iff the category does not mix known and unknown roles |
| HelpSync.UnknownRoleMakesOrderMatter | src/lib/server/help/help-service.ts:10-15 | two orders of the same files, one shown to members and one hidden |
| HelpSync.SweepsExactlyOrphans | scripts/sync-help-articles.ts:170-176 | a completed sync removes a static article iff there are files and none has its slug |
| HelpSync.OpenRowsArePublishedFiles | src/lib/server/help/help-service.ts:95-114 | after a sync a role finds an open static article in a category iff some slug's last file there admits it and the slug was published before |
| HelpSync.ListsWhatIsOpenIff | src/lib/server/help/help-service.ts:54-84 | readers are listed a category exactly when it holds something they can open, iff no published article in it is more permissive than it |
| HelpSync.SyncedCategoryListsWhatIsOpenIff | scripts/sync-help-articles.ts:81-94 | after a sync that is so iff, of what was published before, the files hide neither one of themselves (known role, none derived) nor an editor's article (known role, none derived or each file more restricted) |
| HelpSync.StaffFileHidesMembersArticle | scripts/sync-help-articles.ts:81-94 | a staff file in a category with a members' editor article: members can open it but are not listed the category |
| HelpSync.HelpTables.CollectCategories | scripts/sync-help-articles.ts:70-94 | the two folds over the files |
| HelpSync.HelpTables.UpsertAllCategories | scripts/sync-help-articles.ts:96-120 | the category loop as specified |
| HelpSync.HelpTables.UpsertAllArticles | scripts/sync-help-articles.ts:129-168 | the article loop as specified, stopping where an insert throws |
| HelpSync.HelpTables.SyncFiles | scripts/sync-help-articles.ts:63-180 | the script's `main` as specified |
| Fees.FeeIsLeast | src/lib/finance/fees.ts:9-19 | the fee is the least whole number of cents from 29 thousandths and 30 cents up; nothing on nothing |
| Fees.TenDollarsQuote | src/lib/finance/fees.ts:32-42 | 1000 cents are quoted at 1061 |
| Fees.CoverageIsExact | src/lib/finance/fees.ts:21-42 | the quoted fee is the fee on the covered total, so the net is exactly the base |
| Fees.CoverageIsLeast | src/lib/finance/fees.ts:21-42 | a total nets at least the base iff it is at least the covered total |
| Fees.CoverageGrows | src/lib/finance/fees.ts:32-42 | the total grows by at least the growth of the base |
| Fees.PerUnitQuoteSuffices | src/lib/remote/membership.remote.ts:56-58 | n times the per-unit quote is never below the quote for n units |
| Closures.RunStaysInOrder | src/lib/remote/closures.remote.ts:29-109 | in every run each stored closure ends after it starts |
| Closures.StartedIsFinal | src/lib/remote/closures.remote.ts:72-104 | a started closure is never changed or deleted by any later step |
| Closures.OpenIffNotStarted | src/lib/remote/closures.remote.ts:72-104 | some step can change a closure iff it has not started |
| Closures.StartsInTime | src/lib/remote/closures.remote.ts:103 | a closure has started once the time ahead of it has passed |
| Closures.CreateSucceedsIff | src/lib/remote/closures.remote.ts:29-50 | create succeeds iff the reason fits, the key is free and the stored seconds are in order; the row it leaves |
| Closures.UpdateSucceedsIff | src/lib/remote/closures.remote.ts:52-84 | update succeeds iff the stored closure has not started and the same terms hold; the row it leaves |
| Closures.DeleteSucceedsIff | src/lib/remote/closures.remote.ts:86-109 | delete succeeds iff the closure exists and has not started, and removes it alone |
| Closures.RefusalsInOrder | src/lib/remote/closures.remote.ts:29-109 | which refusal each form gives when several apply |
| Closures.TableAloneRejectsIff | src/lib/server/db/schema/reservation.ts:126-134 | in both forms, exactly which ranges pass the handler and are stopped by the table |
| Closures.HalfSecondIsRefused | src/lib/server/db/schema/reservation.ts:126-134 | a closure from the start of a second to its middle is one of them |
| Closures.StepTouchesOnlyItsOwn | src/lib/remote/closures.remote.ts:76-104 | a step changes no other closure, and a refused step none |
| Closures.ClosureTable.CreateClosure | src/lib/remote/closures.remote.ts:29-50 | the create handler responds and writes as specified |
| Closures.ClosureTable.UpdateClosure | src/lib/remote/closures.remote.ts:52-84 | the update handler responds and writes as specified |
| Closures.ClosureTable.DeleteClosure | src/lib/remote/closures.remote.ts:86-109 | the delete handler responds and writes as specified |
| ResetDb.ClearingEmptiesListed | e2e/reset-db.ts:63-81 | all listed present tables end empty, all others unchanged |
| ResetDb.NeverDanglesIff | e2e/reset-db.ts:57-71 | no single delete leaves a dangling reference iff every table referring to a listed one is listed after it |
| ResetDb.Database.DeleteInOrder | e2e/reset-db.ts:74-75 | the deletes happen in order up to the first that throws |
| ResetDb.Database.ClearAllTables | e2e/reset-db.ts:63-81 | foreign keys end ON whether or not a delete throws; which tables are empty in either case |
| Paging.PageIsNextSlice | src/lib/remote/directory.remote.ts:326-332 | a page is the next slice of the list and `hasMore` tells exactly whether anything is left |
| Paging.ShowAll | src/lib/components/shared/directory/profile/ShowsBox.svelte:43-53 | following `hasMore` from the number of items shown ends after the length over the page size, rounded up, requests, and shows the whole list once |
| RecurrenceRules.ParseReadsPrint | scripts/migrate-from-postgres.ts:704-709 | parsing a printed rule gives exactly its parts, in any order, prefixed or not |
| RecurrenceRules.PrefixIsSkipped | scripts/migrate-from-postgres.ts:706 | a leading `RRULE:` is skipped, once |
| RecurrenceRules.OddPartsAreRead | scripts/migrate-from-postgres.ts:707-708 | a second equals sign ends the value; a part without key or value is ignored; a repeated key overwrites |
| RecurrenceRules.ConvertReadsPrint | scripts/migrate-from-postgres.ts:695-716 | converting a printed rule recovers frequency, interval and the one weekday, with or without ordinal |
| RecurrenceRules.ConvertDefaults | scripts/migrate-from-postgres.ts:711-716 | monthly iff the rule says so; the defaults for a missing interval or weekday |
| RecurrenceRules.WeekdayCodes | scripts/migrate-from-postgres.ts:711 | the seven codes and no others |
| RecurrenceRules.CapitalsAreLetters | scripts/migrate-from-postgres.ts:715 | of a weekday text only the letters A to Z are read |
| RecurrenceRules.WeekdayListReadIff | scripts/migrate-from-postgres.ts:714-715 | a list of weekdays, with or without ordinals, fixes the result whatever the start date iff it has one entry; a longer one gives the start date's weekday |
| RecurrenceRules.NthWeekCountsWeekday | scripts/migrate-from-postgres.ts:716 | `nthWeek` counts the days up to the start day that share its weekday |
| RecurrenceRules.PrintedOrdinalKeptIff | scripts/migrate-from-postgres.ts:714-716 | a printed ordinal is kept iff the start day is that one of its weekday in the month |
| RecurrenceRules.OrdinalFromEndIsLost | scripts/migrate-from-postgres.ts:714-716 | an ordinal counted from the month's end is replaced by the start day's count from its beginning |
| RecurrenceRules.ConvertRrule | scripts/migrate-from-postgres.ts:699-716 | the parsing loop and conversion as specified |
| ProfileLinks.NewUrlsAreFirstUses | scripts/migrate-from-postgres.ts:222-231 | appended URLs are pairwise distinct, absent from the legacy links, and no other URL is missing |
| ProfileLinks.NewUrlsKeepOrder | scripts/migrate-from-postgres.ts:226-241 | appended URLs keep the order of first appearance |
| ProfileLinks.MergedCovers | scripts/migrate-from-postgres.ts:213-245 | every embed URL occurs in the merged list, which is empty iff there is nothing to list |
| ProfileLinks.BuildLinks | scripts/migrate-from-postgres.ts:213-245 | the legacy links in order, each with its own URL and caption, then the new embeds; null iff there is nothing to list |
| VolunteerHours.DocumentedExamples | src/lib/config.ts:446-452 | the three documented examples |
| VolunteerHours.HundredthsAreNearest | src/lib/config.ts:450 | the hundredths shown are the nearest to the quotient |
| VolunteerHours.NoDanglingPoint | src/lib/config.ts:450 | stripping zeros never leaves a point, nor a zero, at the end of a fraction |
| VolunteerHours.MinutesOfFormat | src/lib/config.ts:447-452 | the minutes can be recovered from the text |
| VolunteerHours.FormatIsInjective | src/lib/config.ts:447-452 | different minutes are shown differently |
| VolunteerHours.UnitAgreesWithNumber | src/lib/config.ts:449-451 | the unit is `hr` or `hrs`, singular iff the number shown is 1 |

## Left out

- Services under `src/lib/server` behind the remotes, and the remotes that only guard and delegate.
- Console output, command-line parsing, Postgres, wrangler, Stripe and file access; their results are inputs.
- Staff authorisation and query refresh in the closure forms; each handler is one atomic step.
- The band columns, genres and contact data of `migrateBands`; only ids, members and owners are modelled.
- Booker resolution, status text mapping and subscription intervals in `migrateReservations`: their results are fields of the legacy reservation.
- The series prototype backfill, payment method labels and user ids of `payment_cache`.
- `canonicalizeEmbedUrl`, `detectPlatform` and URL host names: functions given to the link merge.
- Frontmatter parsing, including slugs made only of digits, which it reads as numbers.
- `JSON.parse` of `credits_applied`: its outcome is an input.
- The start date's parts and time zone in a converted rule; the calendar parts used are inputs.
- ReservationPayment.NormalizeRecoversIff: amounts that are text reach the model as the number they read as.
- RecurrenceRules.ConvertReadsPrint: an interval that is no plain run of digits is not interpreted further.
- HelpSync.CategoryAudience: roles named like built-in object properties are treated as any unknown role.
- VolunteerHours.MinutesOfFormat: hours so large that they print with an exponent are not modelled.
