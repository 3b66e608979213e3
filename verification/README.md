# Verified model of the herdr-a2a durable core

herdr-a2a lets terminal agents send each other tasks through a local broker. The broker keeps
every task in a SQLite ledger, derives from it the view that clients read, and repairs that view
through an outbox; around the store stand a session lock between processes, a send gate between
workflows, a client that reconnects, and a table of agent names. This project models those parts
in Dafny and proves what they keep over whole runs.

| files | what they model |
|---|---|
| `Prelude`, `Decimal`, `DeliveryIds`, `DurableTasks`, `RowCodec` | fixed-width integers, the canonical decimal and identifier parsers, the durable task with its validation and wire projection, and its row |
| `StoreModel`, `StoreInvariant`, `StoreRefinement`, `StoreCommits` | the four tables as one value, each immediate transaction as one function on it, and the laws of their runs |
| `StoreMeaning`, `LegacyRows` | what those transactions mean for whoever reads the tables: which batches are accepted and what is then stored and shown, and the life of rows from before the ledger |
| `TaskStores` | the transactions as the code performs them, row by row and in loops, proved equal to those functions, and the store object |
| `Admissions`, `AdmissionRegistries`, `SdkProtocol` | the one-shot registry that lets a late SDK write through, as books and as an object, and the two-step authorisation interleaved with everything else |
| `TaskPages`, `TaskListing` | keyset pagination while rows change, and the list request |
| `SessionLock`, `RuntimeDirs` | the lock and descriptor files, as a state machine of processes that may die anywhere, and the file operations of one process |
| `SendGate` | the map of weak references to per-task mutexes, as a state machine and as an object |
| `Recovery` | the retry loop with backoff, and the connection manager |
| `Slugs`, `Identities` | slug normalisation and the allocation of canonical names |

The main results:

- `RunKeepsInv`, `DrainProjects`, `RepairsDoNotMatter` and `CrashThenStartup`: in every run the
  view agrees with the ledger or has its repair pending; the store settles to the projection mapped
  over the ledger; exactly when drains, SDK writes and crashes do not influence what it settles to.
- `CommitsConverge`, `OrderDoesNotMatter`, `RecommitChangesNothing` and `RunEpoch`: commits of one
  task commute and repeat harmlessly, and the epoch is the maximum accepted.
- `CommitAcceptedIff`, `ReconcileIff`, `CommitStores`, `ProjectionShows` and `CommittedIsShown`: which
  batches are accepted, that exactly their tasks are stored, and what clients then read of them.
- `MigratedRow` and `LegacyLife`: how long legacy rows stay, to the millisecond.
- `StaleTakesIff`, `TakenAtMostAuthorized` and `AdmissionsAreConserved`: exactly when a late write is
  let through, over every interleaving, and never more often than it was authorised.
- `ListedOnce`, `StillToComeIff`, `ApartListedOnce` and `ListAll`: when pagination over changing rows
  neither loses nor repeats a row, and that on an unchanging table it ends with the sorted list.
- `OneOwner`, `OwnersLockIsSafe` and `TakeoverCompletes`: one live owner, never robbed, and the
  takeover of a dead one's lock goes through whatever others do.
- `OneInsidePerTask`: one send workflow per task.
- `Establish`, `RefreshedOnce` and `ReplacementRepeatsIff`: bounded retries and single registration.
- `SlugMeaning`, `FixedIffSlug`, `NamesLast` and `RolesFollow`: what a slug is, and names for life.

How the pieces are represented: Rust strings in the store are their UTF-8 bytes, one character per
byte; role labels are Unicode characters. A JSON column is the value it holds together with whether
its text is canonical. A SHA-256 fingerprint is the projection it digests. A timestamp is an ordered
number. A transaction that fails or a process that dies inside one leaves the database as it was, so
a crash is a run that stops between two transactions. Clocks, random suffixes, launcher and network
answers, I/O failures and whether SQLite's commit succeeds are parameters.

Seven promises turned out not to hold as they are usually put. Each is kept as the code has it, with
an input that shows the failure and the exact condition:

- Reading a row and writing it back can change it: the delivery identifier parser accepts upper-case
  and other spellings and always returns one (`EncodeOfDecode`, `CanonicalIffSpelled`,
  `UpperCaseDeliveryIdIsRespelled`).
- Claiming an owner sweeps finished tasks out of the view but not out of the ledger, which breaks
  the agreement that startup checks (`ClaimAgreesIff`, `ClaimThenStartup`, `LateClaimBreaksTheStore`).
- Releasing a reservation looks at the view, so on a task whose repair is pending its outcome depends
  on that repair (`AlikeReleasedIff`, `RepairsDoNotMatter`, `ReleaseSeesRepairs`).
- An authorisation whose record half comes after the task was deleted and re-created serves the new
  task when context, sender, recipient and creation time are the same (`StaleTakesIff`,
  `DifferentSuccessorIsSafe`, `DeletionIsOvertaken`).
- Pagination can lose or repeat an untouched row: a token names its boundary by rowid, a deleted row's
  rowid can be taken by another task, and rows with the token's timestamp are then compared with the
  new task's id (`StillToComeIff`, `ReusedRowLosesTask`, `ReusedRowRepeatsTask`). Rows with other
  timestamps are safe (`ApartListedOnce`), and all are while boundary rows keep their task
  (`UntouchedListedOnce`).
- A broker replacement can register twice for one observed connection when something re-adopts the
  old broker in between (`ReplacementRepeatsIff`, `ReplacementCanRepeat`).
- A slug of 25 characters and a suffix of 7 or 8, each valid alone, make no name, since a name has
  at most 32 bytes (`PartsFit`, `LongPartsMakeNoName`); the suffixes the broker draws have 6
  (`RandomSuffixFits`).

## Model

| member | source | states |
|---|---|---|
| `Decimal.TextIsCanonical` | crates/herdr-a2a-broker/src/ledger.rs:1331-1343 | the decimal text of a number has no leading zero and reads back as that number |
| `Decimal.CanonicalIsText` | crates/herdr-a2a-broker/src/ledger.rs:1331-1343 | digits without a leading zero are the decimal text of their value |
| `Decimal.ParseAcceptsExactlyCanonical` | crates/herdr-a2a-broker/src/ledger.rs:1331-1343 | the epoch parser accepts a text as n if and only if it is the canonical decimal of n, over all of u64 |
| `DeliveryIds.ParseIsIdempotent` | crates/herdr-a2a-core/src/validation.rs:209-256 | what the identifier parser returns is a fixed point of the parser |
| `DeliveryIds.CanonicalIffSpelled` | crates/herdr-a2a-core/src/validation.rs:247-256 | the identifiers the parser leaves alone: 36 characters, hyphens at 8, 13, 18 and 23, lower-case hexadecimal elsewhere, version digit 7 and a variant digit of 8, 9, a or b |
| `DeliveryIds.ParsesIff` | crates/herdr-a2a-core/src/validation.rs:249-256 | the parser accepts exactly the simple, hyphenated, braced and URN spellings, in any case, of version 7 identifiers of the RFC 4122 variant, and answers with the lower-case hyphenated one |
| `DurableTasks.StoredIffShaped` | crates/herdr-a2a-broker/src/ledger.rs:966-1071 | a task is accepted exactly if its names are well formed, each state has exactly its columns, its times lie in order, its deadline is a day and its retention thirty days away, and its payloads are within their limits |
| `DurableTasks.ProjectionShows` | crates/herdr-a2a-broker/src/ledger.rs:1194-1282 | what a client reads: completed iff replied, failed iff failed or expired, rejected, canceled, submitted iff queued, working otherwise; the reply as the status message, the request as the one history message; the task's ids; and the time of its last transition |
| `DurableTasks.ProjectsIff` | crates/herdr-a2a-broker/src/ledger.rs:1194-1282 | a task projects exactly if it is accepted, its time is representable and its metadata is absent or an object |
| `DeliveryIds.UpperCaseIsRespelled` | crates/herdr-a2a-core/src/validation.rs:209-256 | an upper-case identifier parses, to a different text |
| `RowCodec.StateRoundTrip` | crates/herdr-a2a-broker/src/ledger.rs:1284-1309 | decoding an encoded state gives the state back |
| `RowCodec.DecodeStateExact` | crates/herdr-a2a-broker/src/ledger.rs:1284-1309 | only the encoding of a state decodes to it |
| `RowCodec.NamesStateIff` | crates/herdr-a2a-broker/src/ledger.rs:1284-1309 | the eight state words and the states they name, both ways |
| `RowCodec.HoldsLeaseIff` | crates/herdr-a2a-broker/src/ledger.rs:1073-1131 | a lease is read exactly from both its columns, as the recipient's and of the last attempt; no lease from neither |
| `RowCodec.DecodesIff` | crates/herdr-a2a-broker/src/ledger.rs:1073-1131 | a row is read as a task exactly if it holds that task column by column and the store accepts it |
| `RowCodec.DecodeOfEncode` | crates/herdr-a2a-broker/src/ledger.rs:438-511 | a task with a version in i64 range is read back from its row exactly when the store's validation accepts it, although lease owner and attempt are not stored |
| `RowCodec.EncodeOfDecode` | crates/herdr-a2a-broker/src/ledger.rs:1073-1131 | a row that decodes is written back unchanged if and only if its delivery identifier is absent or spelled as `CanonicalIffSpelled` says |
| `RowCodec.UpperCaseDeliveryIdIsRespelled` | crates/herdr-a2a-broker/src/ledger.rs:1073-1131 | a row that decodes and is written back differently: the condition of `EncodeOfDecode` is needed |
| `StoreInvariant.EncodedDemands` | crates/herdr-a2a-broker/src/ledger.rs:438-511 | the row written for a task demands of the view exactly the task's projection, as `ProjectionShows` describes it, at its version |
| `StoreInvariant.InvValidates` | crates/herdr-a2a-broker/src/ledger.rs:808-912 | a prepared store that keeps the invariant passes `validate_store` |
| `StoreInvariant.InvDrains` | crates/herdr-a2a-broker/src/ledger.rs:559-596 | every pending entry of such a store can be applied, whatever the older view rows hold |
| `StoreInvariant.MigrateAgrees` | crates/herdr-a2a-broker/src/ledger.rs:664-777 | migration establishes the agreement of view and ledger |
| `StoreInvariant.TombstonesAgree` | crates/herdr-a2a-broker/src/ledger.rs:598-662 | closing owner-only reservations keeps the agreement |
| `StoreInvariant.PurgeAgrees` | crates/herdr-a2a-broker/src/ledger.rs:779-806 | removing ids from all four tables keeps the agreement |
| `StoreInvariant.DrainAgrees` | crates/herdr-a2a-broker/src/ledger.rs:559-596 | a drain keeps the agreement |
| `StoreInvariant.SdkAgrees` | crates/herdr-a2a-broker/src/store.rs:491-562 | an SDK write, accepted or not, keeps the agreement |
| `StoreInvariant.UpsertAgrees` | crates/herdr-a2a-broker/src/ledger.rs:438-511 | one upsert keeps the agreement |
| `StoreInvariant.CommitAgrees` | crates/herdr-a2a-broker/src/ledger.rs:361-530 | an accepted batch with epoch, deletes and upserts keeps the agreement |
| `StoreInvariant.ClaimAgreesIff` | crates/herdr-a2a-broker/src/store.rs:564-707 | a claim that takes effect keeps the agreement if and only if no row it sweeps is the only copy of a retained task's projection |
| `StoreInvariant.ClaimMeaning` | crates/herdr-a2a-broker/src/store.rs:564-707 | the outcome of every claim by case, and row by row what it leaves in the view and the reservations |
| `StoreInvariant.SweptIff` | crates/herdr-a2a-broker/src/store.rs:606-634 | a claim's sweep takes exactly the view rows of completed, failed, rejected or canceled tasks with no time or one no later than the cutoff |
| `StoreInvariant.ClaimKeepsInv` | crates/herdr-a2a-broker/src/store.rs:564-707 | a claim under that condition keeps the whole invariant, legacy schema included |
| `StoreInvariant.ReleaseAgrees` | crates/herdr-a2a-broker/src/store.rs:709-731 | releasing a reservation keeps the agreement |
| `StoreInvariant.CommitIds` | crates/herdr-a2a-broker/src/ledger.rs:392-436 | after an accepted batch the retained ids are the survivors and the batch's own, and they fit the cap |
| `StoreInvariant.QuarantineIds` | crates/herdr-a2a-broker/src/ledger.rs:598-662 | in a prepared store closing reservations changes no retained id and is never refused for lack of room |
| `StoreInvariant.ClaimCapacity` | crates/herdr-a2a-broker/src/store.rs:564-707 | a claim never takes the retained ids over the cap, on a legacy store either, and a granted one always ends within it |
| `StoreInvariant.RunKeepsCapacity` | crates/herdr-a2a-broker/src/ledger.rs:392-436 | over every run of every transaction, from a legacy store on, the ledger and owner ids together stay within 4096 once they are; a prepared store always is |
| `StoreInvariant.StepKeepsAgreement` | crates/herdr-a2a-broker/src/ledger.rs:361-596 | every transaction keeps the agreement |
| `StoreInvariant.StepKeepsMeta` | crates/herdr-a2a-broker/src/ledger.rs:664-777 | every transaction keeps the epoch canonical and the first-start anchor usable |
| `StoreInvariant.RunKeepsInv` | crates/herdr-a2a-broker/src/ledger.rs:808-939 | in every state of every run each retained row has a current view row or a pending repair equal to its projection, no view row is orphaned or ahead, and the store validates |
| `StoreRefinement.DrainedView` | crates/herdr-a2a-broker/src/ledger.rs:239-323 | after a drain the view of the retained ids is the projection mapped over the ledger, and other rows are untouched |
| `StoreRefinement.DrainProjects` | crates/herdr-a2a-broker/src/ledger.rs:559-596 | from any reachable state the drain succeeds, empties the outbox and leaves full agreement, whatever content the older view rows had; what the rows then show is `SettledViewShows` |
| `StoreRefinement.DrainedOfUpsert` | crates/herdr-a2a-broker/src/ledger.rs:438-511 | settling after an upsert is settling before it and then adding the new row and its projection |
| `StoreRefinement.SdkSettles` | crates/herdr-a2a-broker/src/store.rs:491-562 | an SDK write never changes what the store settles to |
| `StoreRefinement.AlikeCommit` | crates/herdr-a2a-broker/src/ledger.rs:361-530 | a commit accepts the same batches and settles the same way whichever repairs were already made |
| `StoreRefinement.AlikeQuarantined` | crates/herdr-a2a-broker/src/ledger.rs:598-662 | closing reservations does not depend on which repairs were made |
| `StoreRefinement.AlikeReleasedIff` | crates/herdr-a2a-broker/src/store.rs:709-731 | a release keeps two stores that differ only in repairs alike if and only if its reservation is absent or the id has a view row in both or in neither |
| `StoreRefinement.RunsMatch` | crates/herdr-a2a-broker/src/ledger.rs:361-596 | a run without claims and the same run without its drains and SDK writes stay matched at every step, as long as each release finds the same thing in both |
| `StoreRefinement.RepairsDoNotMatter` | crates/herdr-a2a-broker/src/ledger.rs:530-596 | at every point of a run without claims, whatever drains and SDK writes happened or were lost to crashes, the settled database is the one the other transactions alone determine, if and only if no release of a held reservation finds a view row that was not there from the start of the run |
| `StoreRefinement.ViewWithoutRepairs` | crates/herdr-a2a-broker/src/ledger.rs:361-596 | the run without repairs has a view row exactly for the ids that had one at the start and were neither deleted nor pruned since, as the run itself can tell |
| `StoreRefinement.UnretainedReleasesAreBlind` | crates/herdr-a2a-broker/src/store.rs:709-731 | releases of reservations whose id is no retained task always meet that condition |
| `StoreRefinement.QuarantineSucceeds` | crates/herdr-a2a-broker/src/ledger.rs:598-662 | closing reservations succeeds if and only if every open reservation has a valid id and recipient |
| `StoreRefinement.FinishCompletes` | crates/herdr-a2a-broker/src/ledger.rs:123-154 | prune, validate and drain always complete on a store that keeps the invariant |
| `StoreRefinement.StartupCompletes` | crates/herdr-a2a-broker/src/ledger.rs:123-154 | startup is refused only for a malformed reservation on a prepared store and only for a refused migration on a legacy one, and otherwise ends in full agreement |
| `StoreRefinement.BareRowHalts` | crates/herdr-a2a-broker/src/ledger.rs:808-912 | a retained row without view row and pending repair stops every startup |
| `StoreRefinement.ClaimThenStartup` | crates/herdr-a2a-broker/src/store.rs:564-707 | after a claim that takes effect the next startup is ready if and only if the condition of `ClaimAgreesIff` held and every open reservation is well formed |
| `StoreRefinement.CrashThenStartup` | crates/herdr-a2a-broker/src/ledger.rs:123-154 | a crash between the ledger commit and its drain is invisible after startup: same refusal or the same database |
| `StoreRefinement.RestartAfterRun` | crates/herdr-a2a-broker/src/ledger.rs:123-154 | the same for whole runs: startup after a run and after the run without its drains and SDK writes is refused alike or reaches the same database |
| `StoreCommits.SingleCommit` | crates/herdr-a2a-broker/src/ledger.rs:361-530 | a batch of one task is one upsert if its id fits, and changes nothing if not |
| `StoreCommits.AfterBoth` | crates/herdr-a2a-broker/src/ledger.rs:438-511 | of two versions of a task the second counts only if it is newer, on top of any stored state, quarantined or not |
| `StoreCommits.CommitsConverge` | crates/herdr-a2a-broker/src/ledger.rs:438-530 | commits of one id in any order and with any repetition end exactly where committing the greatest version alone ends |
| `StoreCommits.OrderDoesNotMatter` | crates/herdr-a2a-broker/src/ledger.rs:438-556 | two histories with the same commits, interleaved with any drains, SDK writes and crashes, settle to the same database |
| `StoreCommits.UpsertsApart` | crates/herdr-a2a-broker/src/ledger.rs:438-511 | with distinct ids a batch succeeds when each upsert does, and each acts on its own row only |
| `StoreCommits.RecommitChangesNothing` | crates/herdr-a2a-broker/src/ledger.rs:361-530 | committing an accepted batch of distinct ids again changes nothing, even when it deletes and re-creates a task |
| `StoreCommits.StepEpoch` | crates/herdr-a2a-broker/src/ledger.rs:377-390 | only an accepted batch moves the registration epoch, and only to the greater of the two |
| `StoreCommits.RunEpoch` | crates/herdr-a2a-broker/src/ledger.rs:377-390 | over any run, whatever its claims sweep, the epoch watermark is the maximum over the accepted batches |
| `StoreCommits.MigrationQuarantines` | crates/herdr-a2a-broker/src/ledger.rs:664-777 | migration gives each legacy task or owner id exactly one sender-less quarantined row that is kept for thirty days from its status time or the migration, keeps each task's version and rewrites no projection or owner |
| `StoreCommits.QuarantineLasts` | crates/herdr-a2a-broker/src/ledger.rs:438-449 | a quarantined id refuses upserts and claims, and no transaction but a deletion or a due prune changes its row or deadline |
| `StoreCommits.QuarantineLastsRuns` | crates/herdr-a2a-broker/src/ledger.rs:598-806 | over any run without such an eviction the quarantined row stays as it was and is never a retained task |
| `StoreCommits.PruneRemoves` | crates/herdr-a2a-broker/src/ledger.rs:779-806 | a prune removes from all four tables the quarantined ids whose deadline is no later than now, and touches no other row |
| `StoreCommits.PruneComposes` | crates/herdr-a2a-broker/src/ledger.rs:779-806 | pruning at t1 and then at a later t2 is pruning at t2 |
| `StoreCommits.LateClaimBreaksTheStore` | crates/herdr-a2a-broker/src/store.rs:606-634 | any claim whose cutoff reaches a finished retained task leaves a store that does not validate and that no later startup gets past |
| `StoreCommits.ReleaseSeesRepairs` | crates/herdr-a2a-broker/src/store.rs:709-731 | for every task and reservation, a release before the drain removes the reservation and one after it does not: the condition of `RepairsDoNotMatter` is needed |
| `StoreMeaning.UpsertOutcome` | crates/herdr-a2a-broker/src/ledger.rs:438-530 | a task is taken exactly if it can be kept and its id is free, holds an older task or this very one; it needs reconciliation exactly if a retained task of no smaller version is another one |
| `StoreMeaning.UpsertEffect` | crates/herdr-a2a-broker/src/ledger.rs:438-530 | a task taken is stored, exactly it; a new one has exactly its projection pending; nothing else moves |
| `StoreMeaning.CommitAcceptedIff` | crates/herdr-a2a-broker/src/ledger.rs:361-530 | a batch of distinct ids is accepted exactly if it is well formed, the surviving and named ids number at most 4096, and every task of it is taken |
| `StoreMeaning.ReconcileIff` | crates/herdr-a2a-broker/src/ledger.rs:512-517 | it needs reconciliation, and is rolled back, exactly if the first of its tasks that is not taken clashes with the stored one |
| `StoreMeaning.CommitStores` | crates/herdr-a2a-broker/src/ledger.rs:438-530 | after an accepted batch, duplicates included, the ledger holds for every id the last task the batch names for it |
| `StoreMeaning.CommitFrame` | crates/herdr-a2a-broker/src/ledger.rs:392-398 | an id the batch does not name is gone from all four tables if deleted and otherwise untouched; view rows and reservations go exactly with deletions |
| `StoreMeaning.SettledViewShows` | crates/herdr-a2a-broker/src/ledger.rs:239-323 | in a settled store each retained task's view row has its context, version, projection, state and transition time |
| `StoreMeaning.CommittedIsShown` | crates/herdr-a2a-broker/src/ledger.rs:361-556 | committed and drained, every task of a batch is what clients are shown |
| `StoreMeaning.CleanIff` | crates/herdr-a2a-broker/src/ledger.rs:1133-1192 | a task is clean exactly if it is stored, nothing of it is pending and its view row shows it in every column |
| `StoreMeaning.SweepsFinished` | crates/herdr-a2a-broker/src/store.rs:606-634 | a claim's sweep takes a current view row exactly if its task finished by the cutoff |
| `StoreMeaning.ReleaseMeaning` | crates/herdr-a2a-broker/src/store.rs:709-731 | a release removes exactly the reservation of its own registration, and only of an id without view row |
| `StoreMeaning.ValidatesExactly` | crates/herdr-a2a-broker/src/ledger.rs:808-912 | validation accepts exactly the prepared stores of at most 4096 rows in which every closed row has no sender and a deadline, every other row holds a task with a projection that is pending or shown in every column, and every pending entry is valid |
| `StoreMeaning.NoStartupBeforeEpoch` | crates/herdr-a2a-broker/src/ledger.rs:123-154 | a startup with a clock before the epoch is refused and changes nothing |
| `StoreMeaning.HaltedKeeps` | crates/herdr-a2a-broker/src/ledger.rs:123-154 | a refused startup keeps exactly what its transactions had committed before the one that failed |
| `StoreMeaning.EntryValidIff` | crates/herdr-a2a-broker/src/ledger.rs:914-939 | a pending entry is valid exactly if its row is retained and holds a task with that projection and version |
| `LegacyRows.MigratesIff` | crates/herdr-a2a-broker/src/ledger.rs:664-777 | a prepared store is left as it is, a store of any other schema than the legacy one is refused, and a legacy store is migrated exactly if every task is owned, well named, named so by its own JSON and dated within range, every reservation is well formed, and together they fit the cap |
| `LegacyRows.MigratedRow` | crates/herdr-a2a-broker/src/ledger.rs:664-777 | each legacy id gets one closed row with the reservation's recipient: a task with its own context, version and status time, a mere reservation with the migration's, kept for thirty days from then |
| `LegacyRows.ClosedReservation` | crates/herdr-a2a-broker/src/ledger.rs:598-662 | closing reservations gives each that has neither task nor row a closed row of the first start, kept for thirty days from then, and changes nothing else |
| `LegacyRows.ClosesIff` | crates/herdr-a2a-broker/src/ledger.rs:598-662 | it is refused exactly for a first start out of range, for lack of room or for a malformed reservation |
| `LegacyRows.StartupAndDeadline` | crates/herdr-a2a-broker/src/ledger.rs:779-806 | a quarantined id survives a startup, with view row and reservation, exactly if the startup is before its deadline; otherwise it is gone from all four tables |
| `LegacyRows.LegacyLife` | crates/herdr-a2a-broker/src/ledger.rs:123-154 | over any sequence of startups: a legacy id is kept with view row and reservation through every one before thirty days after its status time, or after the migration if it has no task, and gone for good from the first one at or past it |
| `TaskStores.ApplyProjection` | crates/herdr-a2a-broker/src/ledger.rs:239-323 | the row-level upsert, read-back and delete apply a projection exactly if it is the pending one or, with nothing pending, the view row's, and call it unauthorised exactly if it is stale |
| `TaskStores.UpsertTask` | crates/herdr-a2a-broker/src/ledger.rs:438-511 | the row-level insert-or-update takes a task exactly as `UpsertOutcome` says, and what it takes is then stored |
| `TaskStores.DeleteRows` | crates/herdr-a2a-broker/src/ledger.rs:392-398 | the delete loop removes each id from all four tables, or refuses on a malformed one |
| `TaskStores.CountFits` | crates/herdr-a2a-broker/src/ledger.rs:400-436 | the counting loop decides whether retained and new distinct ids fit the cap |
| `TaskStores.UpsertRows` | crates/herdr-a2a-broker/src/ledger.rs:438-511 | the upsert loop is the fold of single upserts and stops at the first that fails |
| `TaskStores.LedgerTransaction` | crates/herdr-a2a-broker/src/ledger.rs:361-530 | the commit transaction, statement by statement, is `CommitTx`: all or nothing, and after it every id holds the last task named for it |
| `TaskStores.PartlyStep` | crates/herdr-a2a-broker/src/ledger.rs:559-596 | during a drain one entry is applied exactly when it is valid and the view is not ahead of it, whichever entries went before |
| `TaskStores.DrainOutbox` | crates/herdr-a2a-broker/src/ledger.rs:559-596 | the entry-by-entry drain is all entries at once or none, in any order |
| `TaskStores.MigrateTasks` | crates/herdr-a2a-broker/src/ledger.rs:664-777 | the loop over legacy tasks refuses exactly if one of them is malformed, and otherwise yields the quarantined row of each |
| `TaskStores.MigrateOwners` | crates/herdr-a2a-broker/src/ledger.rs:664-777 | the loop over reservations adds a tombstone for each id without a task, or refuses exactly if one of them is malformed |
| `TaskStores.MigrateSchema` | crates/herdr-a2a-broker/src/ledger.rs:664-777 | the two migration loops compute `MigrateTx`: every legacy id gets its closed row with its thirty-day deadline, or nothing changes |
| `TaskStores.QuarantineOwnerOnly` | crates/herdr-a2a-broker/src/ledger.rs:598-662 | the reservation loop computes `QuarantineTx`: closed rows with the deadline of the first start |
| `TaskStores.PruneQuarantined` | crates/herdr-a2a-broker/src/ledger.rs:779-806 | the prune loop computes `PruneTx` |
| `TaskStores.Validate` | crates/herdr-a2a-broker/src/ledger.rs:808-912 | the validation loops decide `ValidateStore` |
| `TaskStores.TaskStore.constructor` | crates/herdr-a2a-broker/src/store.rs:283-332 | a new store starts with an empty, valid admission registry |
| `TaskStores.TaskStore.ApplyPending` | crates/herdr-a2a-broker/src/ledger.rs:156-159 | a drain takes effect entirely or, if it is refused or not durable, not at all |
| `TaskStores.TaskStore.PrepareStartup` | crates/herdr-a2a-broker/src/ledger.rs:123-154 | startup is its four transactions in order, stopping at the first refusal and keeping what was committed; a quarantined id of a prepared store survives exactly before its deadline |
| `TaskStores.TaskStore.CommitBatch` | crates/herdr-a2a-broker/src/ledger.rs:361-556 | a refused or undurable batch changes nothing; `Complete` means full agreement and that every task of the batch is stored and shown; a conflicting batch is rolled back and still repairs what is pending; the admissions of deleted ids are retired |
| `TaskStores.TaskStore.AuthorizeRead` | crates/herdr-a2a-broker/src/store.rs:457-473 | the read half answers version and incarnation exactly when the projection is the clean authoritative one |
| `TaskStores.TaskStore.WriteProjection` | crates/herdr-a2a-broker/src/store.rs:491-562 | succeeds exactly if the commit is durable and, by the tables, the projection is a settled task's current one, the pending one or an admitted stale one, and is denied exactly if it is stale and not admitted; success leaves the task settled at the version returned; failure changes no table and loses no admission; a stale projection takes the first admission of the current incarnation and a smaller version, and writes nothing |
| `TaskStores.AppliesIff` | crates/herdr-a2a-broker/src/ledger.rs:239-323 | applying goes by the tables: exactly the view row's or the pending projection goes through, and what is stale is unauthorised |
| `TaskStores.SettledIsWritable` | crates/herdr-a2a-broker/src/store.rs:491-562 | a settled task's current projection can always be written, whatever is admitted, and a write to it is stale exactly if it is another projection |
| `TaskStores.PendingIsWritable` | crates/herdr-a2a-broker/src/store.rs:491-562 | a pending projection can always be written in a store that keeps the invariant |
| `TaskStores.TaskStore.ClaimTaskOwner` | crates/herdr-a2a-broker/src/store.rs:564-707 | the outcome by case (task retained, reserved by another or by the caller, no room, row in the way); the view and the reservations lose exactly the finished ids, also when there is no room; a granted reservation is there; no other table moves; the invariant is kept under the condition of `ClaimAgreesIff` |
| `TaskStores.ReturnedWhole` | crates/herdr-a2a-broker/src/store.rs:142-158 | an admission taken and put straight back evicts nothing |
| `SdkProtocol.MoveBacks` | crates/herdr-a2a-broker/src/store.rs:457-478 | tickets and recorded reads correspond: every admission issued goes back to one read half with the same projection, version and incarnation |
| `SdkProtocol.RunKeeps` | crates/herdr-a2a-broker/src/store.rs:457-562 | over every interleaving the admission books balance, and the passes held are exactly those of the successful reads of the run, each authoritative when it was made |
| `SdkProtocol.StaleTakesIff` | crates/herdr-a2a-broker/src/store.rs:457-562 | over every run: a stale projection is let through if and only if the task is settled and some read of it still has its admission queued and was made of a task with the same context, sender, recipient and creation time at a smaller version; deletions in between make no difference |
| `SdkProtocol.DifferentSuccessorIsSafe` | crates/herdr-a2a-broker/src/store.rs:457-562 | a re-created task that differs in one of the four fields is never served by the reads made before its time |
| `SdkProtocol.RetiredNeverServes` | crates/herdr-a2a-broker/src/store.rs:481-489 | an admission recorded before the retirement that follows a deletion never serves again |
| `SdkProtocol.DeletionIsOvertaken` | crates/herdr-a2a-broker/src/store.rs:457-478 | for every two versions of a task with the same four fields: read, delete, retire, re-create, drain, record is a run after which the old projection is let through |
| `SdkProtocol.ReplacementsExist` | crates/herdr-a2a-broker/src/store.rs:46-63 | such tasks exist |
| `SdkProtocol.StaleWritesWereAuthorized` | crates/herdr-a2a-broker/src/store.rs:457-562 | a stale projection is let through only if it was once the authoritative one of a task with the context, sender, recipient and creation time of the present one, at a smaller version |
| `SdkProtocol.RunCounts` | crates/herdr-a2a-broker/src/store.rs:457-478 | admissions issued and reads still in flight never exceed the reads made, for each projection and incarnation |
| `SdkProtocol.TakenAtMostAuthorized` | crates/herdr-a2a-broker/src/store.rs:457-562 | a projection is let through for one incarnation at most as often as it was read as authoritative |
| `Admissions.RemoveAtValid` | crates/herdr-a2a-broker/src/store.rs:116-140 | taking one admission keeps the registry valid and removes exactly its ticket |
| `Admissions.PushValid` | crates/herdr-a2a-broker/src/store.rs:81-114 | appending an admission with its own number keeps the registry valid and adds exactly its ticket |
| `Admissions.MadeRoomValid` | crates/herdr-a2a-broker/src/store.rs:81-114 | making room evicts only tickets present and leaves room in the queue and in the registry |
| `Admissions.RetireTickets` | crates/herdr-a2a-broker/src/store.rs:160-164 | dropping a task's queue removes exactly its tickets |
| `Admissions.NextBalances` | crates/herdr-a2a-broker/src/store.rs:73-209 | every step keeps issued = present + consumed + evicted + retired |
| `Admissions.HistoryBalances` | crates/herdr-a2a-broker/src/store.rs:73-209 | so does every history of steps |
| `Admissions.AdmissionsAreConserved` | crates/herdr-a2a-broker/src/store.rs:73-209 | conservation for each task, fingerprint and incarnation, by count |
| `Admissions.SumIsTickets` | crates/herdr-a2a-broker/src/store.rs:73-79 | the number of tickets is the sum of the queue lengths, so the total kept is that sum |
| `Admissions.ValidMeans` | crates/herdr-a2a-broker/src/store.rs:73-114 | in a valid registry each queue holds 1 to 8 admissions, all together at most 4096, and the total kept is their sum |
| `AdmissionRegistries.AdmissionRegistry.constructor` | crates/herdr-a2a-broker/src/store.rs:73-79 | an empty registry is valid |
| `AdmissionRegistries.AdmissionRegistry.RemoveOldestForTask` | crates/herdr-a2a-broker/src/store.rs:166-181 | evicts the smallest sequence number of the task's queue |
| `AdmissionRegistries.AdmissionRegistry.RemoveOldest` | crates/herdr-a2a-broker/src/store.rs:183-208 | evicts the smallest sequence number of all; its `expect` calls cannot fail |
| `AdmissionRegistries.AdmissionRegistry.Record` | crates/herdr-a2a-broker/src/store.rs:81-114 | appends an admission with the next number to its task's queue after making room, or changes nothing when the numbers run out |
| `AdmissionRegistries.AdmissionRegistry.Consume` | crates/herdr-a2a-broker/src/store.rs:116-140 | takes the first admission that matches, the rest of the queue in order, and leaves the registry alone when none does |
| `AdmissionRegistries.AdmissionRegistry.Restore` | crates/herdr-a2a-broker/src/store.rs:142-158 | puts the admission back at the end of its queue, under its old number, after making room |
| `AdmissionRegistries.AdmissionRegistry.RemoveTask` | crates/herdr-a2a-broker/src/store.rs:160-164 | drops the task's queue and its share of the total |
| `AdmissionRegistries.AdmissionRegistry.RetireAll` | crates/herdr-a2a-broker/src/store.rs:481-489 | no admission of the named tasks survives, and no other is touched |
| `AdmissionRegistries.FindOldest` | crates/herdr-a2a-broker/src/store.rs:183-208 | the flattened minimum over all queues |
| `TaskPages.AboveTotal` | crates/herdr-a2a-broker/src/store.rs:1392-1518 | the listing order is total and irreflexive on time and id |
| `TaskPages.AboveTransitive` | crates/herdr-a2a-broker/src/store.rs:1392-1518 | and transitive |
| `TaskPages.StampsDescend` | crates/herdr-a2a-broker/src/store.rs:785-930 | over every walk, boundary rowids taken by other tasks included, timestamps never go up |
| `TaskPages.BoundaryNotRelisted` | crates/herdr-a2a-broker/src/store.rs:785-930 | the boundary row itself is never listed again by the next request, wherever it moved |
| `TaskPages.StillToComeIff` | crates/herdr-a2a-broker/src/store.rs:811-832 | one request: an untouched matching row is still to come exactly if the page before left it to come, if and only if the boundary, with the task now in its row, has it on the same side |
| `TaskPages.ListedOnce` | crates/herdr-a2a-broker/src/store.rs:785-930 | over every walk an untouched matching row is listed exactly once if no boundary changes sides of it |
| `TaskPages.ApartListedOnce` | crates/herdr-a2a-broker/src/store.rs:785-930 | over every walk an untouched matching row whose timestamp is that of no token is listed exactly once |
| `TaskPages.ReusedRowLosesTask` | crates/herdr-a2a-broker/src/store.rs:811-832 | a walk whose boundary rowid another task took never lists an untouched row with the token's timestamp |
| `TaskPages.ReusedRowRepeatsTask` | crates/herdr-a2a-broker/src/store.rs:811-832 | a walk whose boundary rowid another task took lists an untouched row twice |
| `TaskPages.LaterBelow` | crates/herdr-a2a-broker/src/store.rs:1392-1518 | as long as boundary rows keep their task, whatever is listed on a later page lies below the last row of every earlier one, at the key it had when it was fetched |
| `TaskPages.WalkDescends` | crates/herdr-a2a-broker/src/store.rs:785-930 | as long as boundary rows keep their task, a walk lists strictly descending keys, whatever else changes between pages |
| `TaskPages.UntouchedListedOnce` | crates/herdr-a2a-broker/src/store.rs:785-930 | as long as boundary rows keep their task, a matching row not modified during the walk is listed exactly once, even when the boundary row moves and others appear |
| `TaskPages.MoreIsKept` | crates/herdr-a2a-broker/src/store.rs:1392-1518 | on an unchanging table a page that promises more is followed by a non-empty one |
| `TaskPages.QuiescentWalk` | crates/herdr-a2a-broker/src/store.rs:1392-1518 | on an unchanging table the pages concatenate to the sorted list of matching rows, in max(1, ceil(n / size)) pages |
| `TaskListing.Fetch` | crates/herdr-a2a-broker/src/store.rs:785-930 | the ordered, limited query returns the greatest rows in descending order |
| `TaskListing.PageFetched` | crates/herdr-a2a-broker/src/store.rs:785-930 | one row more than the page tells whether there is a next page |
| `TaskListing.ListTasks` | crates/herdr-a2a-broker/src/store.rs:785-930 | invalid parameters exactly for a bad token, size or boundary row; an internal error exactly when a fetched row does not decode or the next token cannot hold its timestamp; otherwise the page its token asks for, all rows of the owner, context, state and time asked for, the token of the next page and the count of all such rows |
| `TaskListing.AcceptableIff` | crates/herdr-a2a-broker/src/store.rs:1299-1340 | a request is acceptable exactly if its size is 1 to 100 or absent and its token is absent or of version 3 and names a row of the owner's |
| `TaskListing.TokenShrinks` | crates/herdr-a2a-broker/src/store.rs:785-930 | on an unchanging table each token leaves strictly fewer rows to come |
| `TaskListing.ListAll` | crates/herdr-a2a-broker/src/store.rs:785-930 | following the tokens on an unchanging table ends with a complete walk, sorted and with exactly the rows of the owner, context, state and time asked for, unless one of them does not decode or has a timestamp no token can hold |
| `SessionLock.NextKeeps` | crates/herdr-a2a-broker/src/runtime.rs:583-746 | every step of every process, deaths at any stage included, keeps the lock protocol's invariant |
| `SessionLock.RunKeeps` | crates/herdr-a2a-broker/src/runtime.rs:583-746 | so does every run |
| `SessionLock.OneOwner` | crates/herdr-a2a-broker/src/runtime.rs:583-746 | at most one live process owns the session, its lock file is in place, and any visible descriptor is the one it published |
| `SessionLock.OwnersLockIsSafe` | crates/herdr-a2a-broker/src/runtime.rs:721-746 | no step of another process touches a live owner's lock |
| `SessionLock.CleanupIsExact` | crates/herdr-a2a-broker/src/runtime.rs:421-438 | cleaning up for one instance never removes another instance's descriptor, though compare and unlink are two steps |
| `SessionLock.ReleaseFrees` | crates/herdr-a2a-broker/src/runtime.rs:721-732 | a release removes the lock in every run, and touches no descriptor |
| `SessionLock.FilesChangeBy` | crates/herdr-a2a-broker/src/runtime.rs:421-705 | a lock appears only for the process that then owns it and goes only when its owner gives it up or no live process owns the session; a descriptor appears only from a holder |
| `SessionLock.TakeoverProgresses` | crates/herdr-a2a-broker/src/runtime.rs:639-705 | under the guard the lock cannot change between the two reads, and after a takeover the second link succeeds |
| `SessionLock.OthersWait` | crates/herdr-a2a-broker/src/runtime.rs:639-705 | while a process is under the guard no step of another changes the files or the process |
| `SessionLock.TakeoverCanStep` | crates/herdr-a2a-broker/src/runtime.rs:639-705 | once the owner is dead, no state of the others keeps the next step of a takeover from being possible |
| `SessionLock.TakeoverCompletes` | crates/herdr-a2a-broker/src/runtime.rs:639-705 | over runs: from finding the owner dead, the next three steps of the process link its own lock, whatever others do in between |
| `RuntimeDirs.RuntimeDir.PublishLock` | crates/herdr-a2a-broker/src/runtime.rs:951-1049 | a lock that becomes visible is complete and never replaces one; it takes the first free of 128 temporary names, and running out of them reads like an existing lock; it fails exactly if a name is free and writing or linking it fails |
| `RuntimeDirs.RuntimeDir.AcquireLock` | crates/herdr-a2a-broker/src/runtime.rs:639-705 | what fails leaves the old lock or none, and the descriptor with an absent lock; under the guard, without faults: acquired if and only if the lock is absent or its owner is dead and unhealthy, and a temporary name is free in the round that links; answered as owned if and only if the owner is alive or healthy. That the lock does not change between the two reads although other processes run is `SessionLock.TakeoverProgresses` |
| `RuntimeDirs.RuntimeDir.Release` | crates/herdr-a2a-broker/src/runtime.rs:721-732 | release removes the lock only while it holds this owner's record |
| `SendGate.TakeKeeps` | crates/herdr-a2a-broker/src/a2a.rs:527-535 | taking a gate keeps: whoever may still lock a task's gate refers to the one in the map |
| `SendGate.ReleaseKeeps` | crates/herdr-a2a-broker/src/a2a.rs:537-546 | removal at strong count one keeps it |
| `SendGate.RunKeeps` | crates/herdr-a2a-broker/src/a2a.rs:629-752 | every interleaving of workflows, with early returns that skip the release, keeps it |
| `SendGate.OneInsidePerTask` | crates/herdr-a2a-broker/src/a2a.rs:629-752 | at most one send workflow per task is inside its gate |
| `SendGate.ArrivalsMeet` | crates/herdr-a2a-broker/src/a2a.rs:527-535 | an arriving workflow gets the gate every other workflow of its task holds |
| `SendGate.ArrivalGetsGate` | crates/herdr-a2a-broker/src/a2a.rs:527-535 | every arrival is given the gate the map then has for its task: the one there before if some workflow still refers to it, else one no workflow has seen |
| `SendGate.ForgetsIff` | crates/herdr-a2a-broker/src/a2a.rs:537-546 | the last workflow to release a gate takes its entry out of the map, and no other release does |
| `SendGate.GateMap.constructor` | crates/herdr-a2a-broker/src/a2a.rs:470-484 | an empty map models the world without workflows |
| `SendGate.GateMap.SendGate` | crates/herdr-a2a-broker/src/a2a.rs:527-535 | the map operation is the protocol's step, reference counts included |
| `SendGate.GateMap.ReleaseSendGate` | crates/herdr-a2a-broker/src/a2a.rs:537-546 | the conditional removal is the protocol's step |
| `SendGate.GateMap.DropGate` | crates/herdr-a2a-broker/src/a2a.rs:629-752 | dropping the last reference leaves a dead entry and nothing else |
| `Recovery.AttemptIsAdmissible` | crates/herdr-a2a-cli/src/recovery.rs:412-490 | a successful attempt is for the same session, workspace and name, and not for the rejected broker instance |
| `Recovery.AttemptSucceedsIff` | crates/herdr-a2a-cli/src/recovery.rs:412-490 | an attempt succeeds exactly with what registering at an acceptable broker other than the observed one answers, if it is that broker's descriptor and the known name |
| `Recovery.AttemptRetriesIff` | crates/herdr-a2a-cli/src/recovery.rs:412-490 | it is worth another try exactly if something on the way was unavailable or the descriptor still names the observed broker |
| `Recovery.DelaysDouble` | crates/herdr-a2a-cli/src/recovery.rs:32-34 | waits start at 50 ms and double up to a second; jitter adds at most a quarter |
| `Recovery.WaitedFourteen` | crates/herdr-a2a-cli/src/recovery.rs:32-42 | thirteen minimal waits fit into ten seconds and fourteen do not |
| `Recovery.Establish` | crates/herdr-a2a-cli/src/recovery.rs:412-490 | at most fourteen attempts for any jitter and durations, no sleep planned past the deadline, and the answer is exactly what the first turn that does not go on ends with: shutdown, deadline, the attempt's own answer or the sleep's |
| `Recovery.RecoverKeeps` | crates/herdr-a2a-cli/src/recovery.rs:315-349 | a replacement never returns the observed broker, a refresh never the observed connection, a failure changes nothing |
| `Recovery.RunKeeps` | crates/herdr-a2a-cli/src/recovery.rs:270-349 | every installed connection keeps the original session, workspace and agent name |
| `Recovery.RefreshedOnce` | crates/herdr-a2a-cli/src/recovery.rs:315-349 | however calls interleave, one observed connection is refreshed by at most one registration |
| `Recovery.SingleFlight` | crates/herdr-a2a-cli/src/recovery.rs:270-349 | callers with the same observed connection and mode cause at most one registration and share its connection |
| `Recovery.ReplacementRepeatsIff` | crates/herdr-a2a-cli/src/recovery.rs:315-349 | among other callers a replacement registers again if and only if the observed broker instance is installed again, which takes an installation in between that re-adopted it |
| `Recovery.ReplacementCanRepeat` | crates/herdr-a2a-cli/src/recovery.rs:315-349 | such a run exists, so the unconditional promise fails |
| `Recovery.ReplacedMeansAnother` | crates/herdr-a2a-cli/src/recovery.rs:364-405 | probing for a replacement answers only with another broker instance |
| `Recovery.ReplacedIff` | crates/herdr-a2a-cli/src/recovery.rs:364-405 | every answer of a probe, by case |
| `Recovery.ConnectionManager.constructor` | crates/herdr-a2a-cli/src/recovery.rs:237-264 | the name verified first is the name ever after |
| `Recovery.ConnectionManager.RecoverConnection` | crates/herdr-a2a-cli/src/recovery.rs:270-349 | a call re-checks under the gate and registers only if nobody else did, with the earlier of its own deadline and ten seconds; a caller served by another makes no attempt |
| `Slugs.CanonicalSlug` | crates/herdr-a2a-broker/src/identity.rs:334-362 | the one-pass loop with its separator flag computes `Slug` |
| `Slugs.ScanJoinsWords` | crates/herdr-a2a-broker/src/identity.rs:334-362 | the loop builds the lower-cased alphanumeric words joined by hyphens, cut at 25 characters |
| `Slugs.SlugMeaning` | crates/herdr-a2a-broker/src/identity.rs:334-362 | the result is that text without a hyphen left at the cut, or "agent"; it has 1 to 25 characters, a letter first, single hyphens inside and none at the end |
| `Slugs.FixedIffSlug` | crates/herdr-a2a-broker/src/identity.rs:440-452 | the texts normalisation leaves alone are exactly the slugs |
| `Slugs.SlugIsIdempotent` | crates/herdr-a2a-broker/src/identity.rs:334-362 | normalising twice is normalising once, for every label |
| `Slugs.NamesValidateExactly` | crates/herdr-a2a-broker/src/identity.rs:454-473 | a stored name validates if and only if it is its slug joined with some suffix the allocator accepts |
| `Slugs.PartsFit` | crates/herdr-a2a-broker/src/identity.rs:440-452 | a slug and suffix make a name if and only if both are well formed and together have at most 31 characters |
| `Slugs.LongPartsMakeNoName` | crates/herdr-a2a-broker/src/identity.rs:440-452 | a slug and a suffix, each valid alone, that make no name |
| `Slugs.RandomSuffixFits` | crates/herdr-a2a-broker/src/identity.rs:76-98 | a drawn suffix makes a name with the slug of every label |
| `Slugs.RandomSuffixMeans` | crates/herdr-a2a-broker/src/identity.rs:76-98 | a suffix is drawn exactly if there are six hexadecimal digits, and spells each of them with its own letter |
| `Slugs.LastDigitsOfHex` | crates/herdr-a2a-broker/src/identity.rs:76-98 | of an identifier ending in hexadecimal digits they are the last ones, last first |
| `Identities.AllocationIsExact` | crates/herdr-a2a-broker/src/identity.rs:244-279 | allocation takes the first draw that does not collide; an unusable draw or eight collisions decline and change nothing |
| `Identities.ResolveAnswers` | crates/herdr-a2a-broker/src/identity.rs:164-283 | every answer a request can get, by case: malformed key, workspace mismatch, the known row under the new role, the first draw that does not collide, or exhaustion |
| `Identities.TryMeans` | crates/herdr-a2a-broker/src/identity.rs:440-452 | an attempt is usable exactly for 4 to 8 base-32 characters that fit, names slug, hyphen and suffix, and collides exactly if a row has that name |
| `Identities.RowsValidIff` | crates/herdr-a2a-broker/src/identity.rs:364-402 | what a valid table is: well-formed keys of the expected workspace, names made from the slugs, role labels, one workspace |
| `Identities.AsciiFieldIff` | crates/herdr-a2a-broker/src/identity.rs:420-425 | a printable field is accepted exactly if it has 1 to the maximum bytes |
| `Identities.RoleIff` | crates/herdr-a2a-core/src/validation.rs:159-170 | a printable role label has 1 to 256 bytes, and none holds control characters or line separators |
| `Identities.RandomAllocationIsExact` | crates/herdr-a2a-broker/src/identity.rs:244-279 | with drawn suffixes it declines only by exhaustion, and exactly when all eight names are taken |
| `Identities.ResolveTouchesOneRow` | crates/herdr-a2a-broker/src/identity.rs:164-283 | a declined request changes nothing, a resolved one only the row of its key |
| `Identities.ResolveKeepsSound` | crates/herdr-a2a-broker/src/identity.rs:164-283 | every request keeps the rows valid, in one workspace, with unique names |
| `Identities.ResolveKeepsName` | crates/herdr-a2a-broker/src/identity.rs:164-283 | a key keeps its canonical name and original slug through any request |
| `Identities.ResolvedIsFound` | crates/herdr-a2a-broker/src/identity.rs:285-331 | the answer is the stored row and the only one under its name |
| `Identities.NamesLast` | crates/herdr-a2a-broker/src/identity.rs:164-283 | over any run with any suffix source names and slugs never change and the table always validates |
| `Identities.RolesFollow` | crates/herdr-a2a-broker/src/identity.rs:200-242 | the role of a known key is that of its latest request from a store of its workspace |
| `Identities.DifferentKeysDiffer` | crates/herdr-a2a-broker/src/identity.rs:164-283 | two keys resolved at any points of a run have different names |
| `Identities.ValidateRows` | crates/herdr-a2a-broker/src/identity.rs:364-402 | the row loop with its workspace set decides row validity and the single workspace |
| `Identities.IdentityStore.Open` | crates/herdr-a2a-broker/src/identity.rs:121-137 | no store on rows that do not validate |
| `Identities.IdentityStore.ForWorkspace` | crates/herdr-a2a-broker/src/identity.rs:148-162 | a second store on the same connection, exactly for a valid workspace that all rows share |
| `Identities.IdentityStore.ResolveOrCreate` | crates/herdr-a2a-broker/src/identity.rs:164-283 | the transaction with its retry loop computes `Resolve` and keeps the table sound |
| `Identities.IdentityStore.FindByCanonical` | crates/herdr-a2a-broker/src/identity.rs:285-331 | finds the one identity of that name, or none exists |

## Left out

- StoreInvariant.RunKeepsInv: a run may contain owner claims only where each that takes effect meets the condition of `ClaimAgreesIff`, because without it the property is false.
- StoreRefinement.RepairsDoNotMatter: runs without owner claims, because a claim keeps the agreement only under the condition of `ClaimAgreesIff`; releases are included.
- StoreCommits.CommitsConverge: batches of one task that projects and encodes; a batch that does not is refused and changes nothing.
- TaskStores.TaskStore.WriteProjection: taking the admission and committing are one step here; the registry changing in between is covered by `SdkProtocol` and `Admissions`, where a put-back may evict.
- TaskStores.TaskStore.CommitBatch: the rows reported as repaired or pruned are not counted.
- TaskPages.ListedOnce: walks in which some row is still under each token's rowid; if none is, the request is refused as invalid (`ListTasks`) and the walk ends there.
- TaskListing.ListTasks: shaping of the returned tasks (history length, artifacts) is not modelled.
- SessionLock.OneOwner: each process is one thread that acquires and then holds; several stores inside one process are not modelled.
- RuntimeDirs.RuntimeDir.AcquireLock: one caller under the guard, so its changed-lock exit is out of reach by construction; interleaving is in `SessionLock`.
- Recovery.Establish: assumes each completed sleep advances the clock by at least its length, and takes a deadline at most ten seconds after the start, which is what `recovery_attempt_deadline` always gives it.
- Identities.IdentityStore.ResolveOrCreate: SQLite failures other than a constraint violation and a poisoned mutex are not modelled; both return an error and change nothing.
- Identities.ValidateRows: which of several errors is reported depends on row order and is not stated.
- The depth and entry limits of metadata, and the JSON text itself: canonical encoding is taken to be injective.
- `load`, `task_principal`, `task_owner` and `get`: plain reads of the tables.
- Execution admissions in the request handler: single-use tokens that gate who may start an execution; no table, gate or registry here reads them, so no result turns on them.
- HTTP, JSON-RPC, headers, agent cards and error mapping: transport.
- HMAC proofs, nonces and base64: cryptography.
- Ownership, mode and path checks on files, and the read-only database snapshot: operating-system behaviour.
- The coordinator, the team, doctor and status commands and the terminal interface: process supervision and user interface.
- The broker's in-memory transitions (lease, acknowledge, reply, expiry, wait): batches arriving at `commit` are arbitrary here.
- Update of SQLite rows in place: tables are map values that a transaction replaces.
