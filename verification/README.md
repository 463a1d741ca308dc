# Durable state of the memory server, in Dafny

This project models the logic that keeps the memory server's SQLite tables
sound when several agents, workers and processes use them, and three
algorithms around it. Tables are maps, a guarded `UPDATE ... WHERE` is one
atomic step, a transaction either takes all its steps or none, and a run is
the sequence of steps that all clients issued, in commit order. ISO times are
integers, SHA-256 is an arbitrary function of what is hashed, and clocks, ids
and platform calls are parameters.

Each store object is a class whose fields are the tables and whose methods
change them statement by statement; every method is proved against a function
from the old tables to the new ones, and the lemmas are about runs of those
functions. What such a function does to a row is also said without it, column
by column and in the values themselves (`JobColumns.dfy`, `PlanEffects.dfy`,
`EntryColumns.dfy`, `AssetColumns.dfy`, `IdentityAnswers.dfy`,
`BudgetMeaning.dfy`, `Channel.dfy`).

| file | what it covers |
|---|---|
| `Jobs.dfy`, `JobColumns.dfy` | derivation jobs: claim, renew, checkpoint, finalize, cancel, reap; what each column of a job holds |
| `Plans.dfy`, `PlanRuns.dfy`, `PlanStore.dfy` | applying a maintenance plan: one call, whole runs, the store object |
| `PlanEffects.dfy` | which entries an apply supersedes and how many, what every answer writes, what superseded entries point to |
| `PlanRaces.dfy` | applies on several connections, cut into reads, the state validation writes, the other writes, and the audit row |
| `PlanItems.dfy`, `TextOrder.dfy` | the plan hash, the two text orders behind it, grouping by fingerprint |
| `Planner.dfy`, `Maintenance.dfy` | from duplicate groups to plan items, and from there to superseded entries |
| `Entries.dfy`, `EntryColumns.dfy` | guarded entry updates, the full-text table, the revision log, imported entries and history; which statement writes which column |
| `Assets.dfy`, `AssetColumns.dfy` | asset envelopes and their version log, column by column |
| `Identity.dfy`, `IdentityAnswers.dfy` | project identities, aliases, id normal forms; what is answered and written in each mode |
| `Budget.dfy`, `BudgetMeaning.dfy` | budget accounting against a recount, single writes, the sums of a batch |
| `TopicObjects.dfy` | a JavaScript object as a table of numbers: own keys in order, inherited names, `__proto__` |
| `BatchBudget.dfy`, `BatchOrder.dfy`, `BatchEach.dfy` | the import preflight over such objects; whether the order of a batch decides; against judging its entries one by one |
| `Assembly.dfy`, `Channel.dfy`, `Ties.dfy` | the bootstrap channel and the string its hash covers; order, caps, filters and text in terms of the entries; entries that tie |
| `Similarity.dfy` | the Jaccard index and its chain bound |
| `Archive.dfy` | the tar writer, a reader, and the round trip |
| `Sorting.dfy`, `Common.dfy` | sorting with a strict order, shared value types |

## Where the code does not do what it says

The model follows the code. These points are lemmas below, or can be read off
the model's steps.

- Jobs: finalize and checkpoint do not look at the lease owner, so a worker
  that lost its lease still ends the new holder's job. A checkpoint does not
  extend the lease although its comment says so. The cancel mark is never
  cleared, so once a cancel is recorded no renewal ever succeeds again.
- Entries: the guarded UPDATE leaves out `tier` while the logged snapshot has
  the patched one, and it writes the access columns back as they were read.
  The log is gapless exactly when every write passes a revision context; the
  supersede step of maintenance passes none. An import keeps an entry's revision
  and logs no row for it, and a full-history import inserts the source's history
  rows also for an entry it skips: the log can then be ahead of the entry, and
  every update that passes a context fails on the log's key, though the row did
  not move, until one that passes none commits.
- Plans: the items are hashed in JavaScript's order of target ids and read back
  in SQLite's, so a plan nobody touched is rejected exactly when two ids first
  differ in a character beyond U+FFFF against one from U+E000 to U+FFFF. The
  server's own ids are `mem_` and hex digits (`src/domain.ts:181-183`), which
  never do; such ids come in with imported entries, which keep their original
  id. A plan without destructive items stays `pending`, so the same key is
  accepted again only while no listed entry moves; over several connections two
  keys can both succeed for a plan exactly when it has no destructive item (and
  its rows hash as stored and can be read). Writing a plan's state has no guard,
  neither in validation nor after it: a call that read the row before a commit
  and writes after it turns the completed plan expired or rejected, and the
  committing key is refused from then on. Any item that is not `retain` is
  merged, whatever its kind. Revisions are kept in plain objects by entry id, and
  such an object loses the id `__proto__`, which only an import can bring: a plan
  that lists it is not stored whole.
- Assets: the loser of an append race gets a primary-key exception, not the
  documented `cas_mismatch`; a store call that expects a version beyond the
  head commits a version row the head never reaches.
- Identity: an id given without a path is looked up verbatim, not in normal
  form. A derived id handed back with its path is found only if it is in normal
  form. Registering a bare path whose alias belongs to another id succeeds, and
  asking strictly afterwards disagrees. Register runs in no transaction.
- Budget: the projected entry count is off by one for each replaced row; SQL
  lengths stop at the first NUL; a batch is judged on all topics, a single write
  only on its own. The preflight keeps topics in plain objects, so a topic named
  like a property of Object.prototype (`constructor`, `toString`, ...) reads an
  inherited value: its sum is no number, every comparison with it is false, and
  charges to `__proto__` are lost. Exactly when no such topic is charged (charges
  to `__proto__` may cancel out) are the projected topics the recount, and does
  the preflight agree with judging the entries one by one. The verdict on a batch
  depends on its order exactly when such a topic, other than `__proto__`,
  competes with an ordinary one that gains characters to be enumerated first and
  no array index precedes both. Judging one write is free of this: its copy of
  the topics has no prototype.
- Assembly: the candidate comparison never returns zero, so tied entries come
  out in an order that depends on the listing. The selection is the same for
  every such order exactly when, wherever a group of ties begins, those of its
  entries that would be taken first all fit together. The listing behind the channel is the newest
  hundred visible rows, so a hundred unrelated writes empty the channel and
  change its hash. Two callers whose identifiers hold line breaks can hash the
  same string over the same channel text: actor `a`, line break, `b` of project
  `c` and actor `a` of project `b`, line break, `c`.
- Archive: sizes or times of twelve octal digits make the header longer than
  512 bytes; names beyond 99 code units or outside 1..255 do not come back.

## Model

| member | source | states |
|---|---|---|
| `DerivationJobs.ReachableRows` | src/sqlite-store.ts:1848-2135 | in every reachable table a row is running exactly when it has an owner and an expiry |
| `DerivationJobs.LeaseClauseRedundant` | src/sqlite-store.ts:1901-1947 | the lease clause of claim excludes no reachable row that the state clause admits |
| `DerivationJobs.AttemptsCountClaims` | src/sqlite-store.ts:1901-1947 | `attempt_count` is the number of claims of the job that succeeded in the run |
| `DerivationJobs.StampsAreWrittenOnce` | src/sqlite-store.ts:1901-2055 | once set, `started_at`, `finished_at` and the identifying columns never change in any run |
| `DerivationJobs.SettledRowsAreFrozen` | src/sqlite-store.ts:1901-2135 | succeeded, cancelled and failed-without-retry rows never change again |
| `DerivationJobs.UnsettledRowsCanMove` | src/sqlite-store.ts:1901-2135 | every other row can still be changed by some statement |
| `DerivationJobs.LeaseExclusion` | src/sqlite-store.ts:1901-1947 | with an ordered clock, a second successful claim with no finalize between comes after a reap, at or after the last expiry granted by claim or renew |
| `DerivationJobs.SecondClaimHasACause` | src/sqlite-store.ts:1901-2135 | with finalizes allowed, a second claim needs a reap or a failure whose retry time is due |
| `DerivationJobs.SupersededHolderNeverRenews` | src/sqlite-store.ts:2086-2112 | after another worker's claim the old holder can renew only if it wins a claim again |
| `DerivationJobs.CancelEndsRenewals` | src/sqlite-store.ts:1991-2003 | after a recorded cancel no renewal succeeds, not even under a later claim |
| `DerivationJobs.StrangerFinishes` | src/sqlite-store.ts:2015-2055 | after a takeover any finalize, also the old holder's, ends the new holder's job |
| `DerivationJobs.ReapLeavesNoExpiredLease` | src/sqlite-store.ts:2121-2135 | after a reap every running row has an unexpired lease and every queued row is claimable |
| `DerivationJobs.ReapThenClaimTakesOver` | src/jobs/service.ts:283-312 | reap followed by claim hands over exactly the rows that wait or whose lease ran out |
| `DerivationJobs.ClaimWinsExactlyTheListed` | src/sqlite-store.ts:1960-1983 | claim succeeds exactly on the jobs the unlimited claimable list would show |
| `DerivationJobs.JobStore.ListClaimable` | src/sqlite-store.ts:1960-1983 | the listed ids are claimable, distinct, oldest first, and as many as the limit allows |
| `DerivationJobs.JobStore.ClaimJob` | src/sqlite-store.ts:1901-1947 | wins exactly on waiting rows, sets owner, expiry and state, leaves every other row |
| `DerivationJobs.JobStore.InsertJob` | src/sqlite-store.ts:1848-1881 | inserts exactly when the id and the creator, kind and key are new, and then the row holds each argument in its column |
| `DerivationJobs.JobStore.FinalizeJob` | src/sqlite-store.ts:2015-2055 | changes exactly a running row, by the step function the run lemmas are about |
| `DerivationJobs.JobStore.CheckpointJob` | src/sqlite-store.ts:2062-2078 | changes the cursor of exactly a running row |
| `DerivationJobs.JobStore.RenewLease` | src/sqlite-store.ts:2086-2112 | renews exactly for the holder of a running job whose cancel mark is not due |
| `DerivationJobs.JobStore.RequestJobCancel` | src/sqlite-store.ts:1991-2003 | marks exactly the rows that are not finished |
| `DerivationJobs.JobStore.ReapAndClaim` | src/jobs/service.ts:283-312 | one sweep and one claim, as two steps of the run |
| `DerivationJobColumns.KeysAlwaysUnique` | src/sqlite-store.ts:4538 | no two rows of a reachable table share creator, kind and idempotency key |
| `DerivationJobColumns.RepeatedInsertRefused` | src/sqlite-store.ts:4538 | so a second insert with the three of an earlier one is refused in every continuation |
| `DerivationJobColumns.InsertedIff` | src/sqlite-store.ts:1848-1881 | an insert goes in exactly when neither its id nor its creator, kind and key are taken |
| `DerivationJobColumns.EffectiveIff` | src/sqlite-store.ts:1901-2135 | which rows each of the seven statements selects, column by column |
| `DerivationJobColumns.IdentityIsInserted` | src/sqlite-store.ts:1848-1881 | over any run kind, creator, key and creation time of a row are those of the insert that went in |
| `DerivationJobColumns.CursorIsLastGiven` | src/sqlite-store.ts:2015-2078 | the cursor is that of the last effective checkpoint or finalize that gave one, else the insert's |
| `DerivationJobColumns.StateIsLastGiven` | src/sqlite-store.ts:1901-2135 | the state is what the last effective claim, finalize or reap made it, else queued |
| `DerivationJobColumns.LeaseIsLastGiven` | src/sqlite-store.ts:1901-2135 | owner and expiry are those of the last effective claim or renewal, and none after a finalize or reap |
| `DerivationJobColumns.FailureIsLastGiven` | src/sqlite-store.ts:2015-2055 | retry time, error code and text are those of the last effective finalize, else the insert's retry time and no error |
| `DerivationJobColumns.StartIsFirstGiven` | src/sqlite-store.ts:1901-1947 | the start stamp is that of the first claim won |
| `DerivationJobColumns.FinishIsFirstGiven` | src/sqlite-store.ts:2015-2055 | the finish stamp is that of the first finalize that ended the job |
| `MaintenancePlans.MergeGroupsIff` | src/memory-service.ts:1219-1249 | merging the groups one after the other succeeds exactly when each could be merged at the start, with the combined effect and the count in closed form |
| `MaintenancePlans.CommitsIff` | src/memory-service.ts:1208-1254 | the transaction commits exactly when the plan is pending, its scope is complete and every destructive item is active, unmoved, in scope and in a group of two or more |
| `MaintenancePlans.MemoryAfterCommit` | src/services/memory-maintenance-service.ts:951-975 | after a commit a target that is not the smallest id of its group has status superseded, names the smallest as its successor, is one revision later and otherwise as before; the smallest is as it was and active |
| `MaintenancePlans.OthersAfterCommit` | src/services/memory-maintenance-service.ts:951-975 | a commit adds and removes no entry and changes none that no item names |
| `MaintenancePlans.AllMergeableIff` | src/services/memory-maintenance-service.ts:317-382 | all items can be merged exactly when each one's entry can and another item shares its fingerprint |
| `MaintenancePlans.ObstacleIff` | src/services/memory-maintenance-service.ts:347-368 | an entry can be merged exactly when it is active, at the planned revision, in the plan's scope and project, and not under the id `__proto__` |
| `MaintenancePlans.KeeperIsLeast` | src/services/memory-maintenance-service.ts:944-949 | the entry kept is a target of the group and none is smaller |
| `MaintenanceRuns.SucceedsIff` | src/memory-service.ts:980-1317 | the exact condition, over plan row, items, entries and log, under which an apply succeeds |
| `MaintenanceRuns.FailedTransactionLeavesOnlyAudit` | src/memory-service.ts:1207-1290 | if any group fails, entries and plan are as before, still pending, and one audit row is added |
| `MaintenanceRuns.CallKeeps` | src/memory-service.ts:980-1317 | a call touches no other plan and no item row, changes entries only when it succeeds, and logs one event |
| `MaintenanceRuns.AlwaysSound` | src/memory-service.ts:980-1317 | over every run on one connection the log and the plan rows name one key a plan |
| `MaintenanceRuns.OneKeyEverSucceeds` | src/maintenance-plan-store.ts:217-308 | at most one idempotency key ever succeeds for a plan, destructive or not, over any run of applies, sweeps, edits and tampering |
| `MaintenanceRuns.CommittedAtMostOnce` | src/sqlite-store.ts:5887-5938 | however many connections interleave, a plan's merges are committed at most once |
| `MaintenanceRuns.EntriesMoveOnlyByCommit` | src/memory-service.ts:1207-1290 | entries change only by a commit or by an unrelated edit |
| `MaintenanceRuns.ReplayReturnsTheSame` | src/maintenance-plan-store.ts:217-244 | after a destructive plan succeeded, every later call with its key before expiry returns the same counts and changes no entry and no plan |
| `MaintenanceRuns.RejectedNeverSucceeds` | src/maintenance-plan-store.ts:210-257 | once a plan is rejected or expired no key succeeds any more |
| `MaintenanceRuns.ApplyingNeverVisible` | src/sqlite-store.ts:5903-5938 | between calls on one connection no plan is in state `applying` |
| `MaintenanceRuns.OneConnectionIsCutUp` | src/memory-service.ts:980-1317 | a run of undivided applies reaches the same tables as the run of their four steps, which the results about several connections are about |
| `MaintenanceRuns.RetainSuccessStaysPending` | src/memory-service.ts:1110-1136 | a plan without destructive items succeeds without its row moving; only the audit log keeps the key |
| `MaintenanceRuns.RetainReplayIff` | src/maintenance-plan-store.ts:258-309 | its key is accepted again exactly while every listed entry is visible at its recorded revision |
| `MaintenanceRuns.DriftRejects` | src/memory-service.ts:1038-1076 | a call that finds a listed entry moved, or hidden from this caller, rejects the plan |
| `MaintenanceEffects.MergedAway` | src/services/memory-maintenance-service.ts:317-382 | when a pending plan is applied, every target to be merged that is not the smallest of its fingerprint is superseded by the smallest, one revision later, scope, project and sensitivity as before; the smallest stays active and unchanged |
| `MaintenanceEffects.OthersUntouched` | src/memory-service.ts:1207-1290 | and every other entry is as it was |
| `MaintenanceEffects.CountIsChanged` | src/memory-service.ts:1219-1249 | the count an apply answers is the number of entries whose rows it changed |
| `MaintenanceEffects.AppliesIff` | src/memory-service.ts:980-1317 | a plan with something to merge is applied exactly when it is pending, in time, hashed as stored, nothing it lists moved, no other key is logged, its scope is complete, and each entry to be merged is active, unmoved, in scope and has a twin |
| `MaintenanceEffects.InactiveRefuses` | src/services/memory-maintenance-service.ts:347-368 | a plan over an entry that is gone or no longer active is not applied |
| `MaintenanceEffects.EarlyAnswers` | src/maintenance-plan-store.ts:201-266 | the answer and the plan's row of every call that validation ends before comparing revisions |
| `MaintenanceEffects.LateAnswers` | src/memory-service.ts:1038-1317 | the answer and the plan's row of every call that gets further, in the order of the checks |
| `MaintenanceEffects.TamperRefused` | src/maintenance-plan-store.ts:258-266 | item rows that differ from the created ones in target, revision, action or risk are refused and the plan rejected, as far as the hash tells them apart |
| `MaintenanceEffects.CreatedRow` | src/maintenance-plan-store.ts:126-184 | a created plan is pending with its scope, project, expiry and hash and nothing else recorded, and lists the proposed items |
| `MaintenanceEffects.StopsAtFirstBad` | src/sqlite-store.ts:5817-5831 | the insert loop stores the items in order up to the first that repeats a target or has no number for a revision |
| `MaintenanceEffects.SweepExpires` | src/sqlite-store.ts:5971-5980 | creating and sweeping turn exactly the pending plans whose time has come to expired |
| `MaintenanceEffects.EntryStep` | src/memory-service.ts:1207-1290 | under any interleaving a step that is not an edit of an entry leaves it as it is or supersedes it by an active entry with a smaller id that stays as it is |
| `MaintenanceEffects.InactiveStays` | src/services/memory-maintenance-service.ts:347-368 | an entry that is not active stays exactly as it is until it is edited |
| `MaintenanceEffects.NoLaterMerge` | src/services/memory-maintenance-service.ts:347-368 | so no later plan that would merge a superseded entry commits, on any connection |
| `MaintenanceEffects.AlwaysPointsDown` | src/services/memory-maintenance-service.ts:944-975 | over any run whose edits neither delete nor supersede, every superseded entry names an entry with a smaller id, so following them never runs in a circle |
| `MaintenanceRaces.AlwaysKept` | src/memory-service.ts:980-1317 | over every run of interleaved calls, edits and tampering no plan is left `applying`, a key is stored only on leaving `pending`, and a call about to replay replays what its plan's row stores |
| `MaintenanceRaces.OneKeyCommits` | src/maintenance-plan-store.ts:217-244 | under any interleaving, two successes of one plan that each committed or replayed a commit have one key and the same counts |
| `MaintenanceRaces.TwoKeysIff` | src/memory-service.ts:1110-1136 | some run that leaves the item rows alone lets two different keys succeed for a plan if and only if its rows hold no destructive item, hash to the stored hash, and are for ids whose revision can be read back |
| `MaintenanceRaces.TwoKeysOfPlannedIff` | src/memory-service.ts:1110-1136 | for distinct targets without an inverted pair or `__proto__`: if and only if all items are `retain` |
| `MaintenanceRaces.CompletedStaysIff` | src/maintenance-plan-store.ts:209-266 | a step leaves a completed plan's row as it is exactly when it is not a write of a call that read the row before: validation's own `expired` or `rejected`, or the rejection of a call that found the plan stale, drifted, unplanned or unstructured; otherwise the row takes that state |
| `MaintenanceRaces.CompletedForeverIff` | src/sqlite-store.ts:5887-5892 | a completed plan keeps its row in every continuation exactly when no call that read the row before is still about to write `expired` or `rejected` |
| `MaintenanceRaces.LateRejectionHidesCommit` | src/sqlite-store.ts:5887-5892 | from an empty database, for every plan that can commit: a caller who cannot see the entries begins, another commits, the first ends; the plan is rejected, the entries stay merged, and the committing key is refused |
| `MaintenanceRaces.LateExpiryHidesCommit` | src/maintenance-plan-store.ts:210-217 | from an empty database, for every such plan: one call passes validation in time, another finds the plan past its time, the first commits, the second writes `expired` over the completed plan; the merges stand |
| `MaintenanceRaces.PairCanCommit` | src/memory-service.ts:1207-1254 | two entries of one duplicate group make such a plan, whatever the hash function |
| `MaintenancePlanStore.MaintenanceStore.CreatePlan` | src/maintenance-plan-store.ts:126-184 | sweeps, hashes the sorted items, stores them up to the first repeated target; true exactly when all were stored |
| `MaintenancePlanStore.MaintenanceStore.ValidatePlan` | src/maintenance-plan-store.ts:201-309 | the verdict and the row changes of validation, check by check in the code's order |
| `MaintenancePlanStore.MaintenanceStore.CompareRevisions` | src/maintenance-plan-store.ts:267-284 | finds an unplanned or a drifted target exactly when there is one |
| `MaintenancePlanStore.MaintenanceStore.CheckGroup` | src/services/memory-maintenance-service.ts:347-368 | none exactly when all targets can be merged, otherwise the first obstacle |
| `MaintenancePlanStore.MaintenanceStore.MergePlannedGroup` | src/services/memory-maintenance-service.ts:317-382 | the step of the transaction that `MemoryAfterCommit` is about: the group collapses or nothing changes, and the count is what it superseded |
| `MaintenancePlanStore.MaintenanceStore.RunTransaction` | src/memory-service.ts:1204-1254 | all rows of the commit or exactly the rows it started from |
| `MaintenancePlanStore.MaintenanceStore.ApplyMaintenance` | src/memory-service.ts:980-1317 | the whole call, statement by statement, is the step that the run lemmas and those of `MaintenanceEffects` are about |
| `MaintenancePlanStore.MaintenanceStore.GetAppliedKeys` | src/sqlite-store.ts:6853-6872 | the scan of the log finds exactly the keys of this plan's successful events |
| `MaintenancePlanStore.FirstIsKeeper` | src/services/memory-maintenance-service.ts:944-949 | sorting the targets and taking the first takes the keeper |
| `PlanItems.HashIgnoresInsertionOrder` | src/maintenance-plan-store.ts:132-146 | with unique targets the stored hash does not depend on the order of the proposed items |
| `PlanItems.PayloadsAgreeIff` | src/maintenance-plan-store.ts:139-146 | two lists are hashed over the same payload exactly when they agree, row by row, in target, revision, action and risk |
| `PlanItems.RehashMatchesIff` | src/maintenance-plan-store.ts:261-265 | hashing the rows read back sees the stored payload exactly when no two targets are ordered differently by JavaScript and SQLite |
| `PlanItems.PlainIdsRehash` | src/maintenance-plan-store.ts:258-266 | ids below U+E000, so all of ASCII, never drift on an untampered plan |
| `PlanItems.DriftWithoutTampering` | src/sqlite-store.ts:5855-5858 | two concrete ids whose rows are read back in the other order |
| `PlanItems.GroupByFingerprint` | src/memory-service.ts:1144-1179 | the groups under their fingerprints in order of first appearance, or an item that has none |
| `PlanItems.GroupsPartition` | src/memory-service.ts:1144-1179 | the groups hold every destructive item exactly once |
| `TextOrder.LessByChars` | src/maintenance-plan-store.ts:136-138 | comparing encoded text is comparing at the first character that differs |
| `TextOrder.FirstDifferenceDecides` | src/maintenance-plan-store.ts:136-138 | at the first character that differs SQLite compares code points, and JavaScript does except between one beyond U+FFFF and one from U+E000 to U+FFFF |
| `TextOrder.OrdersAgreeIff` | src/sqlite-store.ts:5855-5858 | JavaScript's and SQLite's order agree on two texts exactly when the pair is not inverted |
| `MaintenancePlanner.ProposeActions` | src/memory-service.ts:838-918 | one item for each memory in a group of two or more, from the earliest group of highest priority, with the stored revision, which is no number for the id `__proto__`; high risk exactly when some item is destructive |
| `MaintenancePlanner.AddItem` | src/memory-service.ts:818-835 | a new target is appended, a known one replaced in place only by a higher priority, list and map stay consistent |
| `MaintenancePlanner.WinnerIsEarliestOfHighest` | src/memory-service.ts:1534-1547 | the deciding group offers the id, none has a higher priority, no earlier one the same |
| `MaintenancePlanner.MergedIff` | src/memory-service.ts:848-907 | a memory is merged exactly when some group of identical title and body holds it |
| `MaintenancePlanner.ItemColumns` | src/memory-service.ts:848-907 | an item records the stored revision, or zero for an entry that is gone, the fingerprint of a group that holds it, and high risk when it merges |
| `MaintenancePlanner.NormalFormUnique` | src/memory-service.ts:838-911 | the items of a plan are determined by the groups and the stored revisions |
| `MaintenancePlanner.FingerprintGroupsAreWhole` | src/memory-service.ts:1144-1179 | grouping the destructive items read back gives each group of identical entries again, complete |
| `MaintenanceEndToEnd.StoredWholeIff` | src/memory-service.ts:1508-1518 | the insert loop stores every item of a plan exactly when no group offers the id `__proto__`, and never a row for it |
| `MaintenanceEndToEnd.ProtoIsNotStored` | src/sqlite-store.ts:5817-5831 | a plan over two identical entries, one of them with that id, is not stored whole |
| `MaintenanceEndToEnd.PlannedThenApplied` | src/memory-service.ts:778-1317 | a plan without that id, made, stored and applied while nothing it lists has moved, succeeds |
| `MaintenanceEndToEnd.GroupsCollapse` | src/memory-service.ts:1219-1249 | and then each group of identical entries has collapsed: the smallest id is untouched and active, every other is superseded by it, one revision later |
| `MaintenanceEndToEnd.OneStaysActive` | src/memory-service.ts:1219-1249 | so exactly one entry of each such group is still active |
| `MaintenanceEndToEnd.OthersStay` | src/memory-service.ts:1219-1249 | and every entry outside those groups is as it was |
| `MemoryEntries.RevisionCountsCommits` | src/sqlite-store.ts:7253-7332 | in every interleaving an entry's revision is the one it started at (1, or that of the imported row) plus the number of committed updates |
| `MemoryEntries.OneWinnerPerRevision` | src/sqlite-store.ts:7274-7300 | two updates that commit find different revisions |
| `MemoryEntries.NoLostUpdate` | src/sqlite-store.ts:7253-7332 | a guarded update that succeeds applies its patch to the content committed just before it; `GuardedColumns` says so column by column |
| `MemoryEntries.AppliedAttemptNeverReapplies` | src/sqlite-store.ts:7204-7236 | an applied attempt is stale ever after, so retries never apply a patch twice |
| `MemoryEntries.SnapshotTierAgreesIff` | src/sqlite-store.ts:7274-7291 | the logged tier is the row's exactly when the patch leaves the stored tier alone |
| `MemoryEntries.AccessSurvivesIff` | src/sqlite-store.ts:5609-5617 | an access counted between read and write survives exactly when the column did not change |
| `MemoryEntries.FtsAlwaysAgrees` | src/sqlite-store.ts:7334-7339 | in every run the full-text table has exactly one row for each entry, with its current fields |
| `MemoryEntries.LogAlwaysAgrees` | src/sqlite-store.ts:7353-7412 | in every run, imports included, a logged revision that no import brought is at most the row's, and the one at the row's revision shows the row apart from tier and access columns |
| `MemoryEntries.CollidesIff` | src/sqlite-store.ts:7380-7412 | in every run an attempt that is not stale fails on the log's key exactly when it passes a context and an import brought the log row for the next revision; the same for plain updates and creates |
| `MemoryEntries.NoLogCollision` | src/sqlite-store.ts:7380-7412 | without imported history the log's primary key never collides, so an attempt fails only because the row moved on |
| `MemoryEntries.AheadBlocksUpdates` | src/sqlite-store.ts:7380-7412 | while the log holds the next revision, no update that passes a context commits, until one that passes none does |
| `MemoryEntries.SkippedImportCollides` | src/portability/importer.ts:1607-1626 | a live entry at revision 1 and a bundle with its history up to 3: the import leaves entry and first log row alone, and the next update with a context collides |
| `MemoryEntries.GaplessIff` | src/sqlite-store.ts:6337-6361 | the log has no gap up to the row's revision if and only if every revision the entry went through without a log row came in with an import, and a logged revision beyond the row's did too |
| `MemoryEntries.GaplessIffEveryWriteLogged` | src/sqlite-store.ts:5326-5343 | without imported history: if and only if every write passed a revision context, and no logged revision is beyond the row's |
| `MemoryEntryColumns.GuardedColumns` | src/sqlite-store.ts:7264-7332 | in any run, after a guarded update that applies each patchable column holds the patch's value if it has one, else the value committed just before; the tier stays, the update time is the update's own, and nothing set at insertion moves |
| `MemoryEntryColumns.UpdateColumns` | src/sqlite-store.ts:5670-5735 | the same of the plain update, which also takes the tier and the update time from the patch |
| `MemoryEntryColumns.ContentColumns` | src/sqlite-store.ts:1512-1539 | by name: topic, title, body, tags, importance, confidence, sensitivity, trust level and pinned come from the patch |
| `MemoryEntryColumns.LifecycleColumns` | src/sqlite-store.ts:1512-1539 | and so do status, expiry, review time, supersession both ways, token and character counts, writer and validity bounds |
| `MemoryEntryColumns.OriginNeverChanges` | src/sqlite-store.ts:1512-1539 | over any run no write changes an entry's scope, project, type, source, creation time, content hash, deletion time or metadata |
| `MemoryEntryColumns.CasAppliesIff` | src/sqlite-store.ts:7274-7320 | a guarded update applies exactly when the row is at the revision it read and the log key is free; otherwise nothing changes |
| `MemoryEntryColumns.GuardedLogRow` | src/sqlite-store.ts:7353-7412 | its log row is new, names who made it and holds the patched columns; no other log row changes |
| `MemoryEntryColumns.SearchShows` | src/sqlite-store.ts:7334-7339 | in every run an entry has one full-text row, with its scope, project, topic, title, body and space-joined tags |
| `MemoryEntryColumns.TouchColumns` | src/sqlite-store.ts:5609-5617 | a counted read writes the three access columns and nothing else |
| `MemoryEntryColumns.InsertedAsGiven` | src/sqlite-store.ts:5326-5343 | a created entry is stored as given at revision 1, an imported one at its own revision, and an existing one is not replaced |
| `MemoryEntries.EntryStore.Transact` | src/sqlite-store.ts:3394-3411 | all statements of the transaction or exactly the tables it started from, at any nesting depth |
| `MemoryEntries.EntryStore.Attempt` | src/sqlite-store.ts:7253-7332 | one guarded update: the outcome and the new tables are those of the step that the run lemmas and `GuardedColumns` are about |
| `MemoryEntries.EntryStore.RunWithBusyRetry` | src/sqlite-store.ts:7204-7236 | under any busy faults the update is applied once or not at all |
| `MemoryEntries.EntryStore.UpdateEntry` | src/sqlite-store.ts:5670-5760 | the unguarded update with its read, full-text row and log row, the step `UpdateColumns` is about; it throws exactly when the log key is taken |
| `MemoryEntries.EntryStore.CreateEntry` | src/sqlite-store.ts:5326-5343 | creates exactly when the id is new and its first log key free, with its full-text row and first log row |
| `MemoryEntries.EntryStore.InsertImported` | src/services/memory-write-service.ts:302-307 | inserts an imported row with its own revision and full-text row exactly when the id is new, and no log row |
| `MemoryEntries.EntryStore.InsertRevisionRow` | src/sqlite-store.ts:6337-6361 | inserts a history row unless the key is taken |
| `AssetRegistry.AlwaysInvariant` | src/sqlite-store.ts:2708-2760 | under any interleaving the version rows are exactly 1..current_version, and `archived_at` is set exactly when archived |
| `AssetRegistry.LoserFailsOnTheKey` | src/assets/service.ts:279-336 | an append that read the envelope succeeds exactly when the head did not move, and otherwise fails on the primary key |
| `AssetRegistry.UnreadAppendOrphansIff` | src/sqlite-store.ts:2708-2760 | a store call leaves an orphan version row exactly when it expects a version beyond the head |
| `AssetRegistry.HistoryIsAppendOnly` | src/sqlite-store.ts:2708-2862 | the head never decreases, no version row changes, archived stays archived |
| `AssetRegistry.OneWinnerPerVersion` | src/sqlite-store.ts:2708-2760 | each version of an asset is written by one append of the run |
| `AssetRegistry.AssetStore.AppendAssetVersion` | src/sqlite-store.ts:2708-2760 | inserts the row and moves the head, only inserts, or fails, as the tables decide |
| `AssetRegistry.AssetStore.CreateSkillVersion` | src/assets/service.ts:211-264 | a fresh id gets a draft envelope at version 1 and that one version row, or nothing changes exactly when the body hash is malformed |
| `AssetRegistry.AssetStore.AppendSkillVersion` | src/assets/service.ts:279-336 | the service call's answer and tables, error by error |
| `AssetRegistry.AssetStore.SetLifecycle` | src/assets/service.ts:395-428 | the service call's answer and tables; archived is refused |
| `AssetColumns.AppendColumns` | src/sqlite-store.ts:2708-2760 | an append writes the version row, the head and the update time, and leaves type, state and archive stamp and every other asset as they were |
| `AssetColumns.LifecycleColumns` | src/sqlite-store.ts:2825-2862 | a lifecycle write sets state, archive stamp and update time and leaves type, head and versions |
| `AssetColumns.StateMovesOnlyByLifecycle` | src/sqlite-store.ts:2708-2862 | over any run an asset's state and archive stamp move only by a lifecycle write of it |
| `AssetColumns.TypeNeverChanges` | src/sqlite-store.ts:2708-2862 | and its type never does |
| `AssetColumns.BodyHashIff` | src/assets/service.ts:211-264 | a body hash is accepted exactly when it is `sha256:` and 64 lower-case hexadecimal digits |
| `ProjectIdentity.NormalizeIdempotent` | src/scope-resolver.ts:118-130 | the normal form of an id is its own normal form |
| `ProjectIdentity.AlwaysSound` | src/scope-resolver.ts:498-536 | in every run each alias points to an existing identity and carries its path, and none is a worktree |
| `ProjectIdentity.CallKeeps` | src/scope-resolver.ts:282-371 | rows are only added, and modes other than register write nothing |
| `ProjectIdentity.RegisterPersists` | src/scope-resolver.ts:394-536 | after a successful register with id and path every later call with the pair, in any mode and after any run, answers the same id and path |
| `ProjectIdentity.IdOnlyCallFindsIff` | src/scope-resolver.ts:538-614 | an id without a path is found exactly when it is given in normal form |
| `ProjectIdentity.DerivedIdNormalIff` | src/scope-resolver.ts:131-151 | a derived id is in normal form exactly when its name part has at most 83 characters and no trailing dash |
| `ProjectIdentity.DerivedIdPassesBackIff` | src/scope-resolver.ts:282-371 | handing a derived id back with its path works exactly when it is in normal form |
| `ProjectIdentity.BarePathAgreesIff` | src/scope-resolver.ts:455-536 | registering a bare path and asking strictly agree exactly when the alias was free or the derived id's |
| `ProjectIdentity.StaleRegisterConfirmedIff` | src/scope-resolver.ts:498-536 | a register that lost a race reports success but is confirmed later exactly when the alias is its own id's |
| `ProjectIdentity.Resolver.RegisterIdentity` | src/scope-resolver.ts:498-536 | the rows a register writes, and the path it returns |
| `ProjectIdentity.Resolver.Resolve` | src/scope-resolver.ts:282-371 | the answer and the tables of one call in any mode |
| `ProjectIdentity.Resolver.ConfigureProject` | src/services/memory-write-service.ts:241-274 | inserts the identity row unless the id has one, as one event of the runs above |
| `IdentityAnswers.StrictAnswerIff` | src/scope-resolver.ts:455-497 | in strict mode, over any run, an unregistered pair and a contradicted alias are conflicts; otherwise the answer is the alias's identity, or the id's, with the path it was registered with |
| `IdentityAnswers.LookupAnswerIs` | src/scope-resolver.ts:394-454 | in lookup mode a registered id is bound to its path and an unknown one is absent with the path given |
| `IdentityAnswers.RegisterDoes` | src/scope-resolver.ts:498-536 | in register mode, unless the alias contradicts the caller, exactly the missing identity and alias rows are added, with these columns |
| `IdentityAnswers.IdAloneAnswers` | src/scope-resolver.ts:538-614 | an id without a path is bound, absent, unbound or refused, as its row, the mode and the switch say |
| `IdentityAnswers.ScopeAnswers` | src/scope-resolver.ts:282-371 | the global scope needs nothing; another scope, no usable id, or neither id nor path is an error |
| `IdentityAnswers.NormalIff` | src/scope-resolver.ts:118-130 | a text is its own normal form exactly when it has at most 96 letters, digits, `_`, `.` and `-`, one letter or digit among them, no two dashes in a row, no dot at the end and no device name before its first dot |
| `IdentityAnswers.BlanksTrimmed` | src/scope-resolver.ts:118-120 | white space around a text does not change its normal form |
| `BudgetGovernor.JoinedTagsLength` | src/budget-governor.ts:79-81 | the length of the joined tags is the sum of their lengths plus one for each gap |
| `BudgetGovernor.IndexSizesAgreeIff` | src/sqlite-store.ts:7066-7114 | the estimate and the SQL size of an entry agree exactly when its text holds no NUL |
| `BudgetGovernor.GetBudgetUsage` | src/sqlite-store.ts:7066-7114 | the loop's totals are the recount of the table |
| `BudgetMeaning.RecountOfRows` | src/sqlite-store.ts:7066-7114 | entries that are not active, and those of other scopes or projects, leave every figure of the recount as it is without them |
| `BudgetMeaning.CountIsRows` | src/sqlite-store.ts:7066-7114 | the entries counted are as many as the active rows of the scope and project |
| `BudgetMeaning.RowAdds` | src/sqlite-store.ts:7066-7114 | one more such row adds itself to the count, the characters, its topic and the index size |
| `BudgetMeaning.ActiveWriteIff` | src/budget-governor.ts:427-451 | an active write is accepted exactly when count, characters, its topic's characters and index size fit with it |
| `TopicObjects.IndexIff` | src/budget-governor.ts:209-265 | the keys that are enumerated first are the numbers below 4294967295 in decimal |
| `BatchBudget.BatchProjectionIsRecountIff` | src/budget-governor.ts:182-343 | projected characters and index size equal a recount after the batch, the entry count differs by one for each replaced row, and the topics are the recount exactly when no inherited name is charged, except charges to `__proto__` that cancel out |
| `BatchBudget.ProjectBatchBudget` | src/budget-governor.ts:182-343 | the loops compute the projection, accept exactly when it passes, and otherwise name the first limit broken and what was observed |
| `BatchBudget.LargestIs` | src/budget-governor.ts:260-265 | the largest topic is the maximum of the numbers, or no number exactly when the first topic enumerated is none |
| `BatchBudget.TopicsPassIff` | src/budget-governor.ts:260-325 | the topic check passes exactly when the first topic enumerated is no number or every number is within the limit |
| `BudgetGovernor.ReleasesForCount` | src/budget-governor.ts:345-353 | the loop counts the replaced active rows |
| `BudgetGovernor.EvaluateBudget` | src/budget-governor.ts:427-451 | one write is accepted exactly when the usage with it fits |
| `BudgetGovernor.AcceptedWritesStayWithin` | src/budget-governor.ts:398-451 | from a table within budget, every sequence of writes each accepted over a recount leaves a table within all four limits |
| `BudgetGovernor.SumsFitIff` | src/budget-governor.ts:182-451 | over sums, for every usage and every non-empty list: the batch fits exactly when judging one by one accepts every step and no topic left alone was over its limit before |
| `BudgetGovernor.SumsIgnoreOrder` | src/budget-governor.ts:182-451 | over sums, neither the projection nor judging one by one depends on the order of the inserts |
| `BatchEach.AsEachIff` | src/budget-governor.ts:182-451 | over every usage and every budget, the preflight accepts a batch of inserts exactly when judging its entries one by one accepts every step and no topic left alone was over its limit, if and only if the batch charges no inherited name (charges to `__proto__` may cancel out) |
| `BatchOrder.OrderFreeIff` | src/budget-governor.ts:209-265 | every order of a batch of inserts, replacements and merges meets the same verdict, over any usage and budget, if and only if no inherited name competes with an ordinary topic that gains characters to be shifted first, or an array index gains some |
| `BatchOrder.InsertOrderMattersIff` | src/budget-governor.ts:209-265 | for inserts the order matters exactly when some entry is under an inherited name other than `__proto__`, some ordinary topic gains, and no array index does |
| `BatchOrder.KeysAfter` | src/budget-governor.ts:241-249 | apart from array indices the topics are enumerated as the old ones that are left and then the new ones in the order of the batch |
| `BatchOrder.OrderDecides` | src/budget-governor.ts:209-265 | topics `constructor` (5) and `big` (1000) at a limit of 100: accepted in that order, refused in the other |
| `BatchOrder.BatchAcceptsWhatEachRefuses` | src/budget-governor.ts:182-451 | that batch is accepted though its second entry, judged alone, is refused |
| `BatchOrder.ProjectionMissesTheRecount` | src/budget-governor.ts:209-240 | and the topics it projects are not those of the table it leaves |
| `ContextAssembly.HashIgnoresOtherEntries` | src/context-assembly/assembler.ts:154-225 | with distinct ids and sort keys the bootstrap text and the hashed string depend only on the set of eligible entries |
| `ContextAssembly.UnrelatedWrite` | src/context-assembly/assembler.ts:418-491 | replacing an ineligible entry by any ineligible ones leaves the text as it is |
| `ContextAssembly.TiesHarmlessWhenAllFits` | src/context-assembly/assembler.ts:631-681 | when everything that passes fits the budget, the text depends only on the eligible entries, tied keys or not |
| `BootstrapChannel.CandidateIff` | src/context-assembly/assembler.ts:418-478 | a candidate is an active entry of no other project, visible to the caller, that is core, pinned working, or named by the rule |
| `BootstrapChannel.CandidatesInOrder` | src/context-assembly/assembler.ts:479-489 | core comes before working and working before archival; within a tier importance never increases, within equal importance the update time never does |
| `BootstrapChannel.BetterLeftOut` | src/context-assembly/assembler.ts:154-198 | a passing candidate of better tier or importance than one taken is left out only if it did not fit the character cap at its turn |
| `BootstrapChannel.BestAreTaken` | src/context-assembly/assembler.ts:154-198 | so where all that pass fit the character cap, the item cap leaves out nothing better than anything taken |
| `BootstrapChannel.SelectsFirst` | src/context-assembly/assembler.ts:154-198 | and the selection is the first of the passing candidates, as many as the item cap allows, 32 without a rule |
| `BootstrapChannel.LeftOutWhy` | src/context-assembly/assembler.ts:175-198 | a passing candidate is left out because the item cap was reached before it or because it did not fit |
| `BootstrapChannel.SelectedObeysRule` | src/context-assembly/assembler.ts:537-574 | a selected entry breaks no exclusion of the rule and meets each inclusion that lists anything |
| `BootstrapChannel.ExcludedBreaksRule` | src/context-assembly/assembler.ts:537-574 | an entry reported as excluded breaks one of them |
| `BootstrapChannel.OneEntryReads` | src/context-assembly/assembler.ts:631-681 | the text of one entry, line by line |
| `BootstrapChannel.HeaderPieces` | src/context-assembly/assembler.ts:631-681 | the line that introduces an entry, piece by piece |
| `BootstrapChannel.SectionReads` | src/context-assembly/assembler.ts:631-681 | a section lists exactly the entries of its type by ascending id, two lines each |
| `BootstrapChannel.SectionPlaced` | src/context-assembly/assembler.ts:640-650 | the sections follow the title in the fixed order of types |
| `BootstrapChannel.CanonicalIsJoined` | src/context-assembly/assembler.ts:387-401 | what is hashed is six fields with a line break between each two |
| `BootstrapChannel.GuardsCount` | src/context-assembly/assembler.ts:430-460 | each guard counts the entries it turns away, once each |
| `BootstrapChannel.PageIsNewest` | src/sqlite-store.ts:5627-5635 | an entry not listed is older than each of the hundred that are |
| `AssemblyTies.TiesHarmlessIff` | src/context-assembly/assembler.ts:154-198 | every order in which the same rows are listed gives the same selection if and only if, wherever a group of tied candidates begins, those of its entries that would be taken first all fit the caps together |
| `AssemblyTies.SelectionFixedIff` | src/context-assembly/assembler.ts:479-489 | the same over all arrangements that respect the keys, whatever the sort does with ties |
| `AssemblyTies.StableText` | src/context-assembly/assembler.ts:154-225 | and then the text depends on the set of eligible entries only |
| `ContextAssembly.TieAtTheCapChangesText` | src/context-assembly/assembler.ts:418-491 | with room for one entry, two tied entries of different types give different texts in the two listing orders |
| `ContextAssembly.CanonicalSeparates` | src/context-assembly/assembler.ts:387-401 | without line breaks in identifiers, equal hashed strings have equal fields |
| `ContextAssembly.LineBreakCollides` | src/context-assembly/assembler.ts:387-401 | with one, two different callers over the same channel text hash the same string |
| `ContextAssembly.SharedHashIff` | src/context-assembly/assembler.ts:387-401 | two callers over channel texts hash the same string exactly when joined fields and texts are the same, or the joined fields of one go on into the text of the other |
| `ContextAssembly.SharedHashOfPlainCallersIff` | src/context-assembly/assembler.ts:387-401 | when no line of a field begins with the channel's title, exactly when joined fields and texts are the same |
| `ContextAssembly.SameHeadIff` | src/context-assembly/assembler.ts:387-401 | joined fields are the same exactly when loadout and caller are, or one actor is the other with the first lines of the other's project |
| `ContextAssembly.PageShowsAllIff` | src/sqlite-store.ts:5627-5635 | the listing shows the channel all its candidates exactly when each has fewer than a hundred newer visible rows |
| `ContextAssembly.UnrelatedWritesCanEmptyTheChannel` | src/sqlite-store.ts:5627-5635 | once every eligible entry has a hundred newer rows the text is the bare title |
| `ContextAssembly.Accounting` | src/context-assembly/assembler.ts:175-198 | the counters are the number and the cost of the selected entries, and the item cap holds |
| `ContextAssembly.CharsWithinCap` | src/context-assembly/assembler.ts:185-190 | without required refs and with a first entry that fits, the character cap holds |
| `ContextAssembly.RequiredIsSelected` | src/context-assembly/assembler.ts:175-198 | a required candidate that passes the filters and is reached before the item cap is selected |
| `ContextAssembly.SelectedNotExcluded` | src/context-assembly/assembler.ts:175-198 | no id is both selected and excluded |
| `ContextAssembly.UnavailableIff` | src/context-assembly/assembler.ts:199-211 | the unavailable refs are exactly the required ids no candidate has |
| `ContextAssembly.ContextAssembler.Select` | src/context-assembly/assembler.ts:154-198 | the selection loop, stopping at the item cap |
| `ContextAssembly.ContextAssembler.FormatChannelText` | src/context-assembly/assembler.ts:631-681 | grouping and writing gives the sections in the fixed type order, each sorted by id |
| `ContextAssembly.ContextAssembler.AssembleBootstrap` | src/context-assembly/assembler.ts:154-225 | the channel's text, ids and counters, of the candidates and the selection that the lemmas of `BootstrapChannel` are about |
| `Similarity.Jaccard` | src/text-similarity.ts:27-34 | the loop computes the size of the intersection over that of the union, zero for two empty sets |
| `Similarity.IndexIsShare` | src/text-similarity.ts:27-34 | the index times the size of the union is the size of the intersection; one for equal sets with a token, zero for disjoint ones |
| `Similarity.ChainBound` | src/text-similarity.ts:27-37 | for all token sets J(a,c) is at least J(a,b) + J(b,c) - 1 |
| `Similarity.NearDuplicatesOfOne` | src/text-similarity.ts:39 | two texts within the threshold of a third have similarity at least 0.4 |
| `Similarity.ChainBoundIsTight` | src/text-similarity.ts:27-39 | three sets on which the bound is attained |
| `TarArchive.HeaderIs512Iff` | scripts/archive.ts:60-137 | a header is 512 bytes exactly when size and time are below 8^11, and then its checksum fits six octal digits |
| `TarArchive.TarHeader` | scripts/archive.ts:60-137 | the buffers, copies and the summing loop build the header that `HeaderLiterals` and `HeaderReadsBack` are about |
| `TarArchive.HeaderLiterals` | scripts/archive.ts:60-137 | in a header in range byte 156 is 48 exactly for a regular file and 53 exactly for a directory, and "ustar", NUL, "00" stand from byte 257 |
| `TarArchive.HeaderReadsBack` | scripts/archive.ts:60-137 | a reader of the ustar Interchange Format in the pax utility of IEEE Std 1003.1 with constants of its own verifies the checksum and gets back kind, size, time, mode 0644 for a file and 0755 for a directory, and owner and group zero and `root` |
| `TarArchive.NameRecoveredIff` | scripts/archive.ts:72-73 | a name comes back exactly when it has at most 99 code units, all between 1 and 255 |
| `TarArchive.ReadsBack` | scripts/archive.ts:243-251 | any list of entries in range reads back in order, up to what the name fields keep |
| `TarArchive.RoundTripIff` | scripts/archive.ts:60-251 | an archive in range reads back unchanged exactly when every name is plain |
| `TarArchive.WholeBlocks` | scripts/archive.ts:185-191 | the stream is a whole number of 512-byte blocks |
| `TarArchive.WalkTar` | scripts/archive.ts:161-192 | the items yielded encode the listing of the tree: parents first, full paths, links and devices skipped |
| `TarArchive.ListedIff` | scripts/archive.ts:161-192 | the listing holds an entry exactly for each file and directory, under the names that lead to it joined by slashes, and none for links, pipes and devices |
| `TarArchive.Archive` | scripts/archive.ts:243-251 | the collected stream is the encoded listing and two zero blocks |
| `TarArchive.ArchiveDeterminesTree` | scripts/archive.ts:161-251 | no two storable trees are archived as the same bytes |

## Left out

- SQL text, row decoders, migrations, pragmas and backups: plumbing around the tables.
- HTTP, the MCP server, the launcher, command lines, plugins and markdown rendering: wrappers and I/O.
- Capability files, access-control lists, token comparison and secret patterns: platform and security calls.
- `src/bootstrap/service.ts`: the maintenance plan has the same shape with stronger guarantees.
- `resolveLoadout` and `rankCleanupCandidates`: selections whose proofs would repeat the assembler's.
- The query and `tool_only` channels of the assembler: the same selection loop over other candidate lists.
- The cap on the number of groups in a plan: the planner's input is the list after the cap.
- Tokenizing and normalizing of text for duplicate detection: the groups and token sets are inputs.
- The detector that forms duplicate groups: that groups of identical entries are disjoint is assumed of it where a lemma says so.
- Lone surrogates in text: a character is a Unicode scalar value, except in archive names, which are UTF-16 code units.
- ISO timestamps are integers, so a string comparison of times is one of numbers.
- Gzip, the zip branch and file reading of `archive`: the model ends at the tar stream, and a file cannot change between `stat` and `readFile`.
- The order `localeCompare` gives directory entries: a directory's children come in that order.
- The pre-mutation backup of an apply: it runs before the transaction and touches no modelled row.
- `createMemoryRef` of the asset service: the same insert and append as `createSkillVersion`.
- The checks an import makes before it writes: entries and history rows come in one by one, with any revision.
- Crashes inside the apply transaction: SQLite rolls the open transaction back, which is the failure branch here.
- Similarity.Jaccard: computes over reals, so the rounding of the quotient in floating point is not modelled.
- BudgetGovernor.EvaluateBudget: does not model the advisory warnings about near duplicates, which never change the verdict.
- ContextAssembly.TieAtTheCapChangesText: sorts by insertion; the language leaves open what an inconsistent comparison does.
- ContextAssembly.HashIgnoresOtherEntries: needs distinct sort keys, because the comparison never returns zero; `AssemblyTies.StableText` covers ties.
- MaintenanceRuns.OneKeyEverSucceeds: holds on one connection; `MaintenanceRaces.TwoKeysIff` says exactly when several connections break it.
- MaintenanceRaces.OneKeyCommits: a call's reads are one step, so nothing comes between its snapshot of the entries, the read of the plan row and the read of the log.
- AssetRegistry.AssetStore.CreateSkillVersion: scope, owner, trust level and manifest are carried by the code without being looked at again, so the check that a project scope names its project is not modelled.
- BatchEach.AsEachIff: covers batches of inserts; judging one write takes a new entry and gives no characters back, so there is no such judgement of a replacement.
- MaintenanceRuns.ReplayReturnsTheSame: holds before the plan's expiry only, because expiry comes before replay in the code.
