# Verified model of the operations and settlement core

A Dafny model of the parts of the system whose correctness rests on more than one function: the lease
protocol of the ops agents, three data migrations, settlement reconciliation, rule patching, backup retention
and source staging. `dafny verify dfyconfig.toml` checks the whole project.

| files | part of the system |
|---|---|
| `CommandTable`, `CommandLaws`, `LeaseProtocol`, `LeaseRuns`, `HeartbeatWait` | restart commands: a shared table, any number of agent processes, crashes at any point, one non-decreasing clock that each transaction has read at some earlier instant. Results are about every run. |
| `RoundRetirement`, `RoundLaws` | retiring legacy clue rounds, and the downgrade that undoes it |
| `InvoiceChain`, `InvoiceBackfill` | which invoices form one version chain, and the physical ids, registry and exceptions written from that |
| `StoreSnapshots` | choosing a finance profile that provably precedes a statement |
| `SetSums`, `FeeComparison`, `FeeAccounting`, `FeeReconcile`, `FeeMeaning`, `CouponDetails` | comparing fee records, accounting for every row, scoping, the coupon map and cent rounding |
| `RuleInput`, `RulePatch`, `RulePatchLaws`, `RuleMeaning` | normalizing, previewing, applying and replaying dated fee rules |
| `IsoCalendar`, `Retention`, `RetentionPlan`, `RetentionLaws` | ISO week keys, what a retention plan keeps, building and applying it |
| `StageArchive`, `StageSource` | accepting a release archive, and swapping source trees under failures and crashes |
| `Basics` | optional values, results, first-of-an-order |

Where the code updates something in place the model is a class or a method with loops, proved against
functions and predicates on values; the laws are proved about those. What each of these functions writes is
further stated column by column, without using the function, in the files named `...Laws` and `...Meaning`
or beside it. Tables are maps or sets, SQL NULL and
Python None are `Option`, exceptions are `Result` values or outcome datatypes, error texts are enumerations.
What the outside world answers (clock, file system, container restart, archive checks) is a parameter over
which every result is quantified. Texts that are only compared or ordered are integers or wrapped integers.

Results that differ from what one might expect:

- The restart call of an agent is not protected by the lease: it can be sent after the lease has lapsed
  (`LeaseRuns.LateRestart`, `LeaseRuns.LateRestartHappens`), exactly when it is sent at or after the remembered
  expiry (`LeaseRuns.OwnsUntilExpiry`).
- A process reads the clock before it opens a transaction. Mutual exclusion and fencing do not depend on how old the
  reading is (`LeaseRuns.LeasesNeverOverlap`, `LeaseRuns.StaleLeaseIsFenced`), but the pause of 300 seconds after a
  finish is shortened by the age of its reading (`LeaseRuns.CooldownRespected`), down to nothing
  (`LeaseRuns.NoPauseHappens`).
- A rule patch links every rule it creates correctly, but does not rewrite existing rules, so the link of an existing
  rule goes stale exactly when a batch inserts a rule right before it (`RulePatchLaws.ExistingLinkSurvivesIff`, with
  an instance in `RulePatchLaws.LinkGoesStale`).
- Staging promises to retain the previous source tree. It does, with one exception: if the deployed tree is an empty
  directory, there is a tree before it, and an interrupt arrives between the last rename and the end of its block, the
  handler moves the older tree over the deployed one (`StageSource.SourceDir.StageSource`, with an instance in
  `StageSource.EmptyTreeCanBeLost`). A tree that staging itself deployed is never empty, so this needs an empty
  directory put there by other means (`StageSource.RunsSafe`).
- The de-duplication of week keys in the retention plan, and the revisit guard of the invoice chain walk, never
  take effect (`RetentionPlan.WeekKeys`, `InvoiceChain.FollowLinks`).

## Model

| member | source | states |
|---|---|---|
| `CommandTable.FirstStarted` | apps/ops_agent/main.py:267-275 | the lapsed running command picked first is the least by start time, then id |
| `CommandTable.FirstCreated` | apps/ops_agent/main.py:289-296 | the pending command picked first is the least by creation time, then id |
| `CommandTable.Table.Submit` | apps/api/dy_api/routes/operations.py:841-905 | a request is accepted exactly when no command of its target is active or still cooling; otherwise no row changes; what is accepted is a request the protocol allows |
| `CommandTable.Table.ClaimNext` | apps/ops_agent/main.py:257-370 | one transaction ends with the table and result of `Claim`, so as `CommandLaws.ClaimMeans` says: at most one lapsed lease is taken back, then the oldest stale request is expired, else the oldest ready one claimed, else there is no work |
| `CommandTable.Table.RenewClaim` | apps/ops_agent/main.py:223-255 | a renewal succeeds exactly for the owner of a live lease; anyone else changes nothing |
| `CommandTable.Table.Finish` | apps/ops_agent/main.py:386-421 | a finish succeeds exactly for the owner of a live lease and starts the cooldown; anyone else changes nothing |
| `CommandLaws.LeaseSeconds` | apps/ops_agent/main.py:191-221 | each lease is the seconds the work still may take, rounded up; the lookup before the restart adds ten |
| `CommandLaws.ReclaimMeans` | apps/ops_agent/main.py:265-287 | if some running lease has lapsed, one started first is taken back, with every column of its new row; otherwise nothing changes |
| `CommandLaws.StaleIsExpired` | apps/ops_agent/main.py:289-307 | if some request is stale, the oldest is marked expired at the reading and reported, and nothing else changes |
| `CommandLaws.ReadyIsClaimed` | apps/ops_agent/main.py:309-370 | if none is stale and some request is ready, the oldest is claimed: owner, epoch, start, expiry and the envelope handed out |
| `CommandLaws.NothingToDo` | apps/ops_agent/main.py:320-330 | otherwise there is no work and nothing changes |
| `CommandLaws.ClaimMeans` | apps/ops_agent/main.py:257-370 | a whole claim transaction: which lease is taken back, then which request is expired or claimed or that there is none, in terms of the table it found |
| `CommandLaws.StaleRequestsShrink` | apps/ops_agent/main.py:289-307 | a transaction that expires a request leaves one stale request fewer and makes none, so stale requests do not block their targets for good |
| `CommandLaws.OwnsMeans` | apps/ops_agent/main.py:223-247 | ownership asks for the instance, the epoch, the status and a lease alive at the reading, and for nothing else |
| `CommandLaws.RenewMeans` | apps/ops_agent/main.py:223-255 | a renewal reaches as far as asked, never shortens a lease and changes nothing but the expiry, in the row and in the envelope |
| `CommandLaws.FinishMeans` | apps/ops_agent/main.py:386-421 | a finish records status, code and time, starts 300 seconds of cooldown and keeps owner, epoch and expiry |
| `CommandLaws.RequestMeans` | apps/api/dy_api/routes/operations.py:867-896 | a request is pending, owned by nobody, lives for 120 seconds and cools its target for 300 |
| `LeaseProtocol.ReclaimEffect` | apps/ops_agent/main.py:265-287 | a reclaim touches one lapsed running row only, keeps its epoch and target and makes it pending |
| `LeaseProtocol.ReclaimedIsClaimable` | apps/ops_agent/main.py:276-319 | a command whose lease was just taken back passes the claim filter of the same transaction, however old its clock reading |
| `LeaseProtocol.ClaimEffect` | apps/ops_agent/main.py:265-370 | a claim transaction keeps the table invariant and changes only the reclaimed row and the expired or granted one |
| `LeaseProtocol.BystanderKeeps` | apps/ops_agent/main.py:265-370 | a live lease of another process survives someone else's claim, and the granted lease is a different one |
| `LeaseProtocol.ClaimKeeps` | apps/ops_agent/main.py:257-370 | a claim by any process keeps the system invariant: one active command per target, faithful envelopes, distinct leases |
| `LeaseProtocol.RenewalKeeps` | apps/ops_agent/main.py:223-255 | both renewals keep the system invariant |
| `LeaseProtocol.RenewalLeads` | apps/ops_agent/main.py:165-189 | a renewal by the owner leads to the next phase with an expiry that covers the rest of the work; a fenced one ends the command for the process |
| `LeaseProtocol.FinishKeeps` | apps/ops_agent/main.py:386-421 | every finish, owned or fenced off, keeps the system invariant |
| `LeaseProtocol.StepKeeps` | apps/ops_agent/main.py:136-421 | every step of every process, crash, submission or clock tick keeps the invariant, freezes finished rows and lowers no epoch |
| `LeaseRuns.Reachable` | apps/ops_agent/main.py:136-421 | every state of every run satisfies the invariant |
| `LeaseRuns.RunEvolves` | apps/ops_agent/main.py:331-352 | between any two states of a run finished rows are unchanged and epochs and time do not fall |
| `LeaseRuns.LeaseStep` | apps/ops_agent/main.py:223-421 | a lease in force stays in force across any step unless that step finishes it or finds it expired |
| `LeaseRuns.GrantOverLease` | apps/ops_agent/main.py:265-352 | a grant on a target whose earlier lease is in force takes that lease back first, after its expiry |
| `LeaseRuns.LeaseHistory` | apps/ops_agent/main.py:265-421 | from its grant on, a lease is in force or was ended by a finish or an expiry in between |
| `LeaseRuns.LeasesNeverOverlap` | apps/ops_agent/main.py:265-370 | for two claims of one target, the first was finished or its expiry had passed before the second was granted |
| `LeaseRuns.OneOwnerPerTarget` | apps/ops_agent/main.py:223-255 | at any moment at most one process can renew or finish a command of a target, whatever the clock readings they work with |
| `LeaseRuns.OwnsUntilExpiry` | apps/ops_agent/main.py:210-255 | before the expiry it remembers a process owns its command with any reading; with a current reading exactly until then; with an older one also later while nobody took the lease back; the remembered expiry is the row's |
| `LeaseRuns.EpochsRise` | apps/ops_agent/main.py:331-352 | each claim of a command has a higher epoch than every earlier one |
| `LeaseRuns.StaleLeaseIsFenced` | apps/ops_agent/main.py:223-255 | once a command is claimed again, no envelope of an earlier claim renews or finishes it, whoever holds it and whatever the reading |
| `LeaseRuns.FinishedOnce` | apps/ops_agent/main.py:386-421 | a command is finished at most once and its row never changes afterwards |
| `LeaseRuns.CooldownRespected` | apps/ops_agent/main.py:372-384 | after a finish no command of the target is granted for 300 seconds, measured between the two clock readings; a finish that takes effect late shortens the pause after it by that delay and no more |
| `LeaseRuns.NoPauseHappens` | apps/ops_agent/main.py:394-413 | such runs exist: a finish that takes effect 300 seconds after its reading is followed at once by a grant on the same target |
| `LeaseRuns.CooledSinceGrant` | apps/ops_agent/main.py:309-384 | from its grant on and while it is active a command stays past the cooldown at the reading of that grant, since nothing else of its target can finish |
| `LeaseRuns.ReclaimedStaysClaimable` | apps/ops_agent/main.py:276-319 | a command that lost its lease is not held back by the cooldown filter of any transaction that read the clock after the claim did |
| `LeaseRuns.KeepsClaim` | apps/ops_agent/main.py:136-189 | a process keeps its claim unchanged while only others act |
| `LeaseRuns.FinishWithinBudget` | apps/ops_agent/main.py:172-221 | after a successful second renewal, a finish within the lease budget, counted from the clock reading of that renewal, succeeds whatever the other processes do |
| `LeaseRuns.LateRestart` | apps/ops_agent/main.py:172-189 | the restart call is not fenced: any run with an armed process extends to one that sends the restart without owning the command |
| `LeaseRuns.LateRestartHappens` | apps/ops_agent/main.py:172-189 | such runs exist, for every target and every valid configuration |
| `HeartbeatWait.DeadlineComes` | apps/ops_agent/main.py:471-497 | with a positive interval the deadline is reached whatever the polls cost |
| `HeartbeatWait.ReplacementMeans` | apps/ops_agent/main.py:472-494 | a replacement heartbeat was started and seen after the restart was sent, by another instance or by the same one started again later |
| `HeartbeatWait.WaitBound` | apps/ops_agent/main.py:471-497 | the wait takes at most the timeout, one interval and the delay of its last poll, however late the earlier polls were |
| `HeartbeatWait.ReplacementHeartbeatSeen` | apps/ops_agent/main.py:464-497 | the wait ends at the first poll that reads a replacement heartbeat or comes at the deadline, and says which; also for an interval of zero if time passes |
| `HeartbeatWait.RestartAndWait` | apps/ops_agent/main.py:172-189 | a restart within its own timeout and under a second of other delay, before the restart, in the last poll and before the finish together, reach the finish within the lease budget |
| `HeartbeatWait.RestartFinishes` | apps/ops_agent/main.py:172-221 | over whole runs: a process that renews, restarts, waits and finishes within those bounds still holds its lease at the finish, and its command ends in success exactly if a replacement heartbeat was read |
| `RoundRetirement.LogTellsFate` | alembic/versions/20260831_0046_retire_legacy_clue_rounds.py:290-441 | the retirement log tells what becomes of each legacy round: deleted exactly if a formal round is named as kept, which then holds its slot, else closed if stale, else converted with its status; no other formal round is in its slot |
| `RoundRetirement.NoNamespaceConflict` | alembic/versions/20260831_0046_retire_legacy_clue_rounds.py:457-473 | the downgrade's namespace check passes right after an upgrade of a table with unique slots |
| `RoundRetirement.RoundsRestored` | alembic/versions/20260831_0046_retire_legacy_clue_rounds.py:508-562 | downgrade after upgrade gives back every round, deleted ones included |
| `RoundRetirement.RoundTrip` | alembic/versions/20260831_0046_retire_legacy_clue_rounds.py:267-580 | downgrade after upgrade passes both checks and restores every round and every center column |
| `RoundRetirement.Displaced` | alembic/versions/20260831_0046_retire_legacy_clue_rounds.py:397-408 | a legacy round whose slot a formal round holds is deleted |
| `RoundRetirement.SlotKept` | alembic/versions/20260831_0046_retire_legacy_clue_rounds.py:397-441 | two surviving rounds of one mode never share lead and round number |
| `RoundRetirement.NamespaceKept` | alembic/versions/20260831_0046_retire_legacy_clue_rounds.py:397-453 | no legacy mode remains and (lead, mode, round number) stays unique |
| `RoundRetirement.NothingDangles` | alembic/versions/20260831_0046_retire_legacy_clue_rounds.py:138-182 | every round that a record, lead or center still points at survives the deletions |
| `RoundRetirement.CentersPointAtKeptRounds` | alembic/versions/20260831_0046_retire_legacy_clue_rounds.py:346-408 | a center still pointing at a legacy round points at one that was neither deleted nor closed |
| `RoundRetirement.ActiveIsCurrent` | alembic/versions/20260831_0046_retire_legacy_clue_rounds.py:184-225 | a converted round still active is the current round of its own center order and its own lead |
| `RoundRetirement.OneActivePerLead` | alembic/versions/20260831_0046_retire_legacy_clue_rounds.py:184-244 | a lead keeps at most one active converted round |
| `RoundRetirement.CenterStatements` | alembic/versions/20260831_0046_retire_legacy_clue_rounds.py:332-395 | the center log holds exactly the centers whose round the upgrade keeps but closes as stale, and exactly those are released |
| `RoundRetirement.UpgradeStatements` | alembic/versions/20260831_0046_retire_legacy_clue_rounds.py:397-441 | the round statements in order have the per-row effect the round trip is proved about |
| `RoundRetirement.DowngradeStatements` | alembic/versions/20260831_0046_retire_legacy_clue_rounds.py:508-562 | the two round statements of the downgrade have their per-row effect |
| `RoundRetirement.RestoreColumns` | alembic/versions/20260831_0046_retire_legacy_clue_rounds.py:563-578 | the loop of one update per projection column restores all logged columns and nothing else |
| `RoundRetirement.ClueDatabase.Upgrade` | alembic/versions/20260831_0046_retire_legacy_clue_rounds.py:267-441 | the upgrade is refused exactly when the guard fires, changing nothing, and otherwise ends with the rounds, centers and logs of `Upgraded`, whose columns `RoundLaws` states row by row |
| `RoundRetirement.ClueDatabase.Downgrade` | alembic/versions/20260831_0046_retire_legacy_clue_rounds.py:456-580 | the downgrade is refused exactly on a conflict, changing nothing, and otherwise restores rounds and centers |
| `RoundRetirement.ClueDatabase.UpgradeThenDowngrade` | alembic/versions/20260831_0046_retire_legacy_clue_rounds.py:267-580 | the upgrade is accepted exactly if the guard passes, and is then undone exactly by the downgrade |
| `RoundLaws.ReleasedCenterIs` | alembic/versions/20260831_0046_retire_legacy_clue_rounds.py:346-395 | every column of a released center: no current round, store or assignment; status and pool follow from where its lead waits |
| `RoundLaws.OtherCentersStay` | alembic/versions/20260831_0046_retire_legacy_clue_rounds.py:346-395 | a center whose round is not closed as stale keeps every column |
| `RoundLaws.ClosedRoundIs` | alembic/versions/20260831_0046_retire_legacy_clue_rounds.py:410-427 | every column of a stale round that is kept: formal, closed, dated by what the row last knew |
| `RoundLaws.ConvertedRoundIs` | alembic/versions/20260831_0046_retire_legacy_clue_rounds.py:429-441 | any other legacy round that is kept only turns formal, and while active no longer expires by itself |
| `RoundLaws.OtherRoundsStay` | alembic/versions/20260831_0046_retire_legacy_clue_rounds.py:397-441 | rounds of other modes are neither changed nor deleted |
| `RoundLaws.DeletedIff` | alembic/versions/20260831_0046_retire_legacy_clue_rounds.py:397-408 | a legacy round is deleted exactly if a formal round has its lead and number |
| `RoundLaws.StaleMeans` | alembic/versions/20260831_0046_retire_legacy_clue_rounds.py:75-116 | a round is stale exactly if it is active, was never followed, is on no record and is no lead's current round |
| `RoundLaws.CollisionMeans` | alembic/versions/20260831_0046_retire_legacy_clue_rounds.py:138-182 | a collision is unsafe exactly if the formal round is of another order or the legacy one is still referred to |
| `RoundLaws.BadOwnershipMeans` | alembic/versions/20260831_0046_retire_legacy_clue_rounds.py:184-225 | a round is badly owned exactly unless its lead shows it as current and its own store's, and the center is that of its order |
| `RoundLaws.InvalidMeans` | alembic/versions/20260831_0046_retire_legacy_clue_rounds.py:184-225 | an active round that is kept is refused exactly unless it is stale or owned by its lead and its order's center alone |
| `RoundLaws.GuardMeans` | alembic/versions/20260831_0046_retire_legacy_clue_rounds.py:123-264 | exactly what the guard lets through, as four statements about rounds, leads, centers and records |
| `RoundLaws.ConflictsMean` | alembic/versions/20260831_0046_retire_legacy_clue_rounds.py:457-494 | the downgrade is refused exactly if a retired slot was taken or a released center given another round meanwhile |
| `RoundLaws.DowngradedRoundIs` | alembic/versions/20260831_0046_retire_legacy_clue_rounds.py:508-562 | every logged round has its logged columns back, whether changed or deleted; the other rounds are untouched |
| `RoundLaws.DowngradedCenterIs` | alembic/versions/20260831_0046_retire_legacy_clue_rounds.py:563-578 | every logged center has all projection columns back; the other centers are untouched |
| `InvoiceChain.ChildLists` | alembic/versions/20260821_0039_promotion_invoice_lifecycle.py:112-116 | the child lists hold exactly the rows superseding a row of the group |
| `InvoiceChain.ChainEnds` | alembic/versions/20260821_0039_promotion_invoice_lifecycle.py:108-117 | in a chain the only root is the first row and the only current row the last |
| `InvoiceChain.ChainChildren` | alembic/versions/20260821_0039_promotion_invoice_lifecycle.py:112-116 | in a chain the children of each row are exactly the next one |
| `InvoiceChain.WalkExtends` | alembic/versions/20260821_0039_promotion_invoice_lifecycle.py:130-140 | following a link whose version counts on leads to a row not visited before |
| `InvoiceChain.FullWalk` | alembic/versions/20260821_0039_promotion_invoice_lifecycle.py:141-145 | a walk as long as the group is a permutation of the group |
| `InvoiceChain.WalkFollowsChain` | alembic/versions/20260821_0039_promotion_invoice_lifecycle.py:130-140 | a walk can only follow the order of a chain |
| `InvoiceChain.WalkOfChain` | alembic/versions/20260821_0039_promotion_invoice_lifecycle.py:130-145 | the walk of a chain never miscounts and ends with the whole chain |
| `InvoiceChain.WalkIsOrdering` | alembic/versions/20260821_0039_promotion_invoice_lifecycle.py:141-145 | a full walk that ends in the only current row is a chain order |
| `InvoiceChain.FollowLinks` | alembic/versions/20260821_0039_promotion_invoice_lifecycle.py:127-140 | the loop ends, either at a row without children or at a miscount, and its revisit guard never stops it |
| `InvoiceChain.WalkChain` | alembic/versions/20260821_0039_promotion_invoice_lifecycle.py:107-146 | a group is accepted if and only if its rows can be ordered from a root, each superseding the one before, versions 1 to n, the last the only current one |
| `InvoiceBackfill.GroupRows` | alembic/versions/20260821_0039_promotion_invoice_lifecycle.py:100-104 | rows are grouped by store and number and the stores of each number are collected, completely and without repetition |
| `InvoiceBackfill.WriteRows` | alembic/versions/20260821_0039_promotion_invoice_lifecycle.py:150-168 | every row of the group gets its physical id and version kind and no other row is touched |
| `InvoiceBackfill.WriteExceptions` | alembic/versions/20260821_0039_promotion_invoice_lifecycle.py:185-207 | one exception per row with the group's reason, never a second one for an invoice |
| `InvoiceBackfill.WriteGroup` | alembic/versions/20260821_0039_promotion_invoice_lifecycle.py:106-168 | a group is walked and written as the chain it is or as separate invoices, decided by the chain property |
| `InvoiceBackfill.BackfillGroup` | alembic/versions/20260821_0039_promotion_invoice_lifecycle.py:106-207 | one turn settles all rows of its group and registers its number or reports every row |
| `InvoiceBackfill.TurnKeeps` | alembic/versions/20260821_0039_promotion_invoice_lifecycle.py:106-207 | a turn keeps every earlier group settled and every later one untouched |
| `InvoiceBackfill.TurnReady` | alembic/versions/20260821_0039_promotion_invoice_lifecycle.py:169-207 | when a group's turn comes its rows have no exception and, if it will be registered, its number is free |
| `InvoiceBackfill.Backfill` | alembic/versions/20260821_0039_promotion_invoice_lifecycle.py:100-207 | after the loops every invoice is settled and every registry entry is that of a single-store chain |
| `InvoiceBackfill.ChainSeparates` | alembic/versions/20260821_0039_promotion_invoice_lifecycle.py:117-145 | within a chain versions differ and only one row is current |
| `InvoiceBackfill.PhysicalUnique` | alembic/versions/20260821_0039_promotion_invoice_lifecycle.py:209-226 | (physical id, version) is unique and a physical id has at most one current row, so the new constraints hold |
| `InvoiceBackfill.RegistryUnique` | alembic/versions/20260821_0039_promotion_invoice_lifecycle.py:169-184 | different registry numbers have different physical ids |
| `InvoiceBackfill.CoveredOnce` | alembic/versions/20260821_0039_promotion_invoice_lifecycle.py:169-207 | each invoice is covered by the registry entry of its number or by one exception, never by both |
| `InvoiceBackfill.ChainIsWritten` | alembic/versions/20260821_0039_promotion_invoice_lifecycle.py:150-168 | the invoices of a chain share one physical id; the first is an original, the others replacements |
| `InvoiceBackfill.LooseIsWritten` | alembic/versions/20260821_0039_promotion_invoice_lifecycle.py:150-168 | an invoice outside a chain is an original, and no other invoice has its physical id |
| `InvoiceBackfill.EntrySays` | alembic/versions/20260821_0039_promotion_invoice_lifecycle.py:169-184 | a registry entry names the one store of its number and the first version, with the date that was registered |
| `InvoiceBackfill.ExceptionSays` | alembic/versions/20260821_0039_promotion_invoice_lifecycle.py:185-207 | an exception names several stores exactly if another store uses the number, and an ambiguous chain only if there is none |
| `StoreSnapshots.Chosen` | alembic/versions/20260824_0043_statement_store_snapshots.py:217-249 | the chosen profile is the first of the eligible ones in the ranking, and none is chosen exactly when none is eligible |
| `StoreSnapshots.ChosenIsLatest` | alembic/versions/20260824_0043_statement_store_snapshots.py:203-249 | the chosen profile was committed before the statement and no eligible one has a higher version or a later creation time |
| `StoreSnapshots.OnlyReason` | alembic/versions/20260824_0043_statement_store_snapshots.py:479-519 | of the reasons an exception may carry exactly one is justified, the one recorded |
| `StoreSnapshots.OutcomeOf` | alembic/versions/20260824_0043_statement_store_snapshots.py:203-275 | an unresolved statement in scope ends with a backfilled profile or one exception, not both |
| `StoreSnapshots.ScopeMeans` | alembic/versions/20260824_0043_statement_store_snapshots.py:216 | a statement is in scope exactly from August 2026 on |
| `StoreSnapshots.EligibleMeans` | alembic/versions/20260824_0043_statement_store_snapshots.py:230-248 | a profile is eligible exactly if it is a basic one of the store, created before the statement, from a batch in a final state committed (or else submitted) before it |
| `StoreSnapshots.InvertedMeans` | alembic/versions/20260824_0043_statement_store_snapshots.py:203-216 | a history is disordered exactly if of two earlier basic profiles of the store the higher version was created first |
| `StoreSnapshots.ReasonMeans` | alembic/versions/20260824_0043_statement_store_snapshots.py:479-519 | each reason exactly by the versions and creation times of the basic profiles of the store |
| `StoreSnapshots.StatementTable.BackfillSnapshots` | alembic/versions/20260824_0043_statement_store_snapshots.py:250-275 | exactly the statements in scope with an eligible profile and no disordered history are filled, from an eligible profile of highest version and latest creation; nothing else of them changes |
| `StoreSnapshots.StatementTable.RecordExceptions` | alembic/versions/20260824_0043_statement_store_snapshots.py:466-522 | exactly the statements in scope still unresolved get an exception, and its reason is the only one that holds of the statement |
| `StoreSnapshots.StatementTable.Upgrade` | alembic/versions/20260824_0043_statement_store_snapshots.py:198-278 | both statements together give every unresolved statement in scope exactly one outcome, leave statements out of scope alone, and fill other statements in scope if they have a snapshot, without an exception |
| `FeeComparison.CountSplits` | scripts/settlement_reconcile.py:266-315 | every counter of the comparison adds up over disjoint sets of scopes |
| `FeeComparison.ScopeDecomposition` | scripts/settlement_reconcile.py:320-329 | every counter, signed cent deltas included, is the sum of that counter over all (month, direction) scopes, for any records |
| `FeeAccounting.RowsByKey` | scripts/settlement_reconcile.py:272-280 | every row has an unknown key or is one of the rows of its key |
| `FeeAccounting.RowsAccounted` | scripts/settlement_reconcile.py:269-281 | a side's rows are its unknown-key rows plus its distinct keys plus its duplicate excess |
| `FeeAccounting.KeysAccounted` | scripts/settlement_reconcile.py:283-295 | the union of keys splits into matched, one-sided and ambiguous keys |
| `FeeAccounting.PairsAccounted` | scripts/settlement_reconcile.py:297-308 | for every field compared plus unknown pairs are the matched keys, and differences are among the compared |
| `FeeAccounting.SwapMirrors` | scripts/settlement_reconcile.py:283-314 | swapping the sides swaps the one-sided counters and negates the deltas |
| `FeeAccounting.OrderIrrelevant` | scripts/settlement_reconcile.py:266-315 | no counter depends on the order of either input |
| `FeeReconcile.IndexRows` | scripts/settlement_reconcile.py:270-278 | the indexing loop builds exactly the rows of each known key and counts the others |
| `FeeReconcile.CountDuplicates` | scripts/settlement_reconcile.py:279-280 | the duplicate counters are the sums over keys they stand for |
| `FeeReconcile.CompareField` | scripts/settlement_reconcile.py:297-314 | one field of a matched pair moves exactly the counters of that field |
| `FeeReconcile.CompareKey` | scripts/settlement_reconcile.py:284-314 | one key moves every counter by that key's contribution |
| `FeeReconcile.CompareRecords` | scripts/settlement_reconcile.py:260-315 | the loops end with every counter at `Count`, so as `FeeMeaning` says at the size of a set of keys or a sum of cents over one |
| `FeeReconcile.CompareScopes` | scripts/settlement_reconcile.py:321-329 | each scope's counters are those of its own records, one entry per scope |
| `FeeReconcile.CoverageMeans` | scripts/settlement_reconcile.py:330-332 | the coverage test on counters says exactly that all keys of a side are known and unique |
| `FeeReconcile.Reconcile` | scripts/settlement_reconcile.py:318-332 | totals, scoped counters and verdict are computed correctly, and every total is the sum of its scopes |
| `FeeMeaning.KeysAre` | scripts/settlement_reconcile.py:282 | the keys compared are those at least one record of a side has |
| `FeeMeaning.KeyCounters` | scripts/settlement_reconcile.py:283-295 | matched, one-sided, ambiguous and duplicate keys are the sizes of the sets of keys that occur as often on each side as the name says |
| `FeeMeaning.RowCounters` | scripts/settlement_reconcile.py:269-275 | the row counters are the number of records and of records without a key |
| `FeeMeaning.ExcessCounter` | scripts/settlement_reconcile.py:280 | the excess is the sum over keys of the records after the first |
| `FeeMeaning.FieldCounters` | scripts/settlement_reconcile.py:297-308 | compared, unknown and different pairs are the sizes of the sets of paired keys whose two values are known, not both known, or known and unequal |
| `FeeMeaning.DeltaCounters` | scripts/settlement_reconcile.py:311-313 | a delta is the sum, over the keys that differ, of the system's cents less the baseline's |
| `FeeMeaning.ScopeHolds` | scripts/settlement_reconcile.py:321-327 | a scope holds the records of its month and direction, each as often as the whole list |
| `FeeMeaning.ScopesAre` | scripts/settlement_reconcile.py:321-327 | the scopes are the pairs of month and direction that occur |
| `CouponDetails.RoundsToNearest` | scripts/settlement_reconcile.py:59-62 | rounding gives the nearest cent, half away from zero, and nothing else satisfies that description |
| `CouponDetails.RoundIsOdd` | scripts/settlement_reconcile.py:59-62 | rounding commutes with negation |
| `CouponDetails.CentsRoundTrip` | scripts/settlement_reconcile.py:59-62 | whole cents written in yuan are read back exactly |
| `CouponDetails.CentsMean` | scripts/settlement_reconcile.py:59-62 | cents are a hundred times the yuan, half a cent rounded away from zero |
| `CouponDetails.ReadCouponMap` | scripts/settlement_reconcile.py:386-413 | a mapping is accepted exactly when its fields are valid and codes and ids are one-to-one within each order, and then holds exactly the rows |
| `CouponDetails.ParseDetails` | scripts/settlement_reconcile.py:181-217 | parsing fails exactly on a rate outside 0 to 1 in a business row, and otherwise yields two records per business row, promotion first |
| `CouponDetails.RecordsSay` | scripts/settlement_reconcile.py:208-217 | each business row yields a promotion and a management record, each with its own store and fee in cents, and the month, receipt, rate, order and coupon they share |
| `CouponDetails.AnomalyMeans` | scripts/settlement_reconcile.py:218-221 | a fee is an anomaly exactly if it is not the receipt times the rate rounded to the nearest cent, half away from zero |
| `CouponDetails.SharedKeyMeansSameCoupon` | scripts/settlement_reconcile.py:208-217 | with an accepted map, parsed rows that share a known comparison key carry the same order and the same coupon code |
| `RuleInput.SortSorts` | scripts/settlement_rule_patch.py:99 | sorting rows with distinct keys gives strictly increasing keys |
| `RuleInput.Collect` | scripts/settlement_rule_patch.py:66-98 | the validation loop accepts exactly well-formed, non-empty, duplicate-free rows with one identity per SKU |
| `RuleInput.Normalize` | scripts/settlement_rule_patch.py:66-99 | normalization accepts exactly those rows and returns the same rows in strict order |
| `RulePatch.LatestEarlier` | scripts/settlement_rule_patch.py:219-227 | the predecessor is an earlier rule of the same SKU with the latest date, if there is one |
| `RulePatch.BuildDiff` | scripts/settlement_rule_patch.py:178-199 | an entry is CREATE exactly if its SKU and product are known and the date is free, NOOP exactly if the same active rule is in place, BLOCKED with the one fitting error otherwise; a batch is applicable exactly if every row is one of the first two |
| `RulePatch.ApplyRow` | scripts/settlement_rule_patch.py:211-232 | one turn of the mutation loop, driven by an entry computed before the loop, is the step of the specification |
| `RulePatch.KeysSoFar` | scripts/settlement_rule_patch.py:211-232 | while the loop runs a row is new exactly if it was new before the loop |
| `RulePatch.ApplyRows` | scripts/settlement_rule_patch.py:211-232 | the mutation loop performs the batch |
| `RulePatch.RuleStore.PatchRules` | scripts/settlement_rule_patch.py:138-241 | one call stores what `Outcome` says or nothing; what that writes and answers `RuleMeaning` states column by column |
| `RuleMeaning.ValidRowsMean` | scripts/settlement_rule_patch.py:66-98 | rows are valid exactly with rates from 0 to 1, one per SKU and date, and one product and type per SKU |
| `RuleMeaning.ErrorsMean` | scripts/settlement_rule_patch.py:147-209 | for every refusal, exactly when it is given, in the order the code asks |
| `RuleMeaning.PayloadMeans` | scripts/settlement_rule_patch.py:157-158 | the payload is the request: the same rows, in order of SKU and date, with source, actor and reason |
| `RuleMeaning.CreatedRuleIs` | scripts/settlement_rule_patch.py:221-229 | every column of a created rule, from the row, its SKU and the call |
| `RuleMeaning.ListedSkuIs` | scripts/settlement_rule_patch.py:212-215 | a listed SKU only changes its type; who changed it and when is noted exactly if it did |
| `RuleMeaning.AuditIs` | scripts/settlement_rule_patch.py:233-239 | an accepted call leaves one audit row with its report, and no other changes |
| `RuleMeaning.EntryShows` | scripts/settlement_rule_patch.py:190-196 | every column of a diff entry, from the SKU and the rule it was made on |
| `RuleMeaning.StampShows` | scripts/settlement_rule_patch.py:232 | after an accepted call its entries also name the versions it created |
| `RulePatchLaws.ApplyEffect` | scripts/settlement_rule_patch.py:211-232 | a batch adds exactly the listed new rules, links each to its predecessor in the final state and retypes exactly the listed SKUs |
| `RulePatchLaws.CreatedRulesAreLinked` | scripts/settlement_rule_patch.py:211-232 | every created rule links to its immediate predecessor in the final state, and no existing rule changes |
| `RulePatchLaws.ExistingLinkSurvivesIff` | scripts/settlement_rule_patch.py:219-227 | a correct link of an existing rule stays correct if and only if the batch does not insert a rule between it and its predecessor |
| `RulePatchLaws.LinkGoesStale` | scripts/settlement_rule_patch.py:211-232 | such a patch exists: an accepted batch after which the correct link of an existing rule is wrong |
| `RulePatchLaws.DiffIsRelevant` | scripts/settlement_rule_patch.py:169-177 | the diff depends only on the rows the fingerprint covers |
| `RulePatchLaws.OnlyApplyChanges` | scripts/settlement_rule_patch.py:161-241 | refusals, previews and replays change nothing |
| `RulePatchLaws.ApplyMatchesPreview` | scripts/settlement_rule_patch.py:174-209 | applying a preview succeeds exactly if the request and the concerned rows are as previewed and the preview was applicable, and then reports the same diff |
| `RulePatchLaws.ApplyPerformsDiff` | scripts/settlement_rule_patch.py:178-232 | an accepted patch creates one rule per CREATE entry, changes nothing per NOOP and leaves other SKUs alone |
| `RulePatchLaws.NothingLeftToDo` | scripts/settlement_rule_patch.py:178-204 | after success a fresh preview of the same rows is all NOOP and applicable, and applying it changes no rule and no SKU |
| `RulePatchLaws.SoundAfterApply` | scripts/settlement_rule_patch.py:220-232 | rule versions stay unique after every patch |
| `RulePatchLaws.HistoryPreserves` | scripts/settlement_rule_patch.py:161-241 | over any history of calls published rules and audit rows stay as they are |
| `RulePatchLaws.ReplayForever` | scripts/settlement_rule_patch.py:164-168 | however many calls come between, repeating an accepted key replays its report, or is rejected if the request differs |
| `IsoCalendar.WeekOfIsWeekDate` | scripts/backup_retention.py:351-353 | the week key, computed branch for branch, is the week date of section 4.1.4 of ISO 8601:2004: weeks start on Monday and belong to the year of their Thursday |
| `IsoCalendar.SameWeekIff` | scripts/backup_retention.py:351-353 | two dates share a key exactly when they share their Monday |
| `IsoCalendar.IsoKeysTellWeeks` | scripts/backup_retention.py:351-353 | the key tells calendar weeks apart and nothing else |
| `IsoCalendar.GregorianYears` | scripts/backup_retention.py:351-353 | day 1 starts year 1, and years have 366 days exactly if divisible by 4 and not by 100, or by 400, otherwise 365 |
| `Retention.Newest` | scripts/backup_retention.py:356-360 | the newest of a bucket is a member no other member is newer than, ties going to the earlier name |
| `Retention.TopMeans` | scripts/backup_retention.py:386 | a backup is among the n newest if and only if fewer than n others are newer |
| `Retention.TopIsNewer` | scripts/backup_retention.py:376-386 | the n newest are newer than all the others |
| `Retention.KeptIsStable` | scripts/backup_retention.py:376-414 | after any part of a plan is applied a new plan keeps exactly what the first one kept |
| `Retention.RetryConverges` | scripts/backup_retention.py:376-414 | planning again after an interrupted deletion deletes exactly the rest of the first plan; after a complete one, nothing; also without a given reference time |
| `Retention.RetainedBound` | scripts/backup_retention.py:385-414 | at most latest + 1 + daily + weekly unpinned valid backups are retained |
| `Retention.DeletedIsSuperseded` | scripts/backup_retention.py:385-414 | for every deleted backup at least `latest` newer ones and an older one survive, and a newer one in each of its day and week buckets |
| `RetentionLaws.ReferenceIsLatest` | scripts/backup_retention.py:382 | without a given time, the reference is the greatest timestamp of a valid backup |
| `RetentionLaws.DeletedIsOutdated` | scripts/backup_retention.py:385-414 | what is deleted is valid and unpinned, at least `latest` survivors are as late, and one is as early |
| `RetentionLaws.DayKeepsLatest` | scripts/backup_retention.py:391-395 | each of the last `daily` calendar days keeps a backup with the greatest timestamp of that day |
| `RetentionLaws.WeekKeepsLatest` | scripts/backup_retention.py:396-407 | each of the last `weekly` Monday-to-Sunday weeks keeps a backup with the greatest timestamp of that week |
| `RetentionLaws.KeptHasReason` | scripts/backup_retention.py:385-414 | a valid backup that stays is pinned, among the latest, the earliest, or the latest of a day or week of the window |
| `RetentionPlan.SliceIsTop` | scripts/backup_retention.py:376-386 | the leading slice of the sorted list is the set of the n newest |
| `RetentionPlan.LastIsOldest` | scripts/backup_retention.py:387-388 | the last of the sorted list is the oldest valid backup |
| `RetentionPlan.WeekKeys` | scripts/backup_retention.py:396-403 | the key loop lists the reference week and the ones before it without ever skipping one |
| `RetentionPlan.KeepDaily` | scripts/backup_retention.py:391-395 | the daily loop keeps exactly the newest backup of each day of the window |
| `RetentionPlan.KeepWeekly` | scripts/backup_retention.py:404-407 | the weekly loop keeps exactly the newest backup of each Monday-to-Sunday week of the window |
| `RetentionPlan.KeepNames` | scripts/backup_retention.py:385-407 | the names collected are exactly those of the kept backups |
| `RetentionPlan.MakePlan` | scripts/backup_retention.py:363-428 | a plan is refused exactly on bad counts, and otherwise lists in name order exactly the kept, the deletable and the invalid, which `RetentionLaws` characterizes by timestamps |
| `RetentionPlan.Recheck` | scripts/backup_retention.py:505-528 | the second look reports a failure exactly when some listed file changed |
| `RetentionPlan.BackupDir.ApplyPlan` | scripts/backup_retention.py:485-542 | deletion is blocked exactly on an invalid backup, a failed or differing rescan or a changed file, and then changes nothing; otherwise files go in order up to the first that cannot be unlinked |
| `RetentionPlan.BackupDir.Run` | scripts/backup_retention.py:363-542 | whatever fails, no kept backup is lost; the run is blocked exactly on an invalid backup, a failed rescan or a changed file to delete, and completes exactly if also every file to delete can be unlinked, leaving the survivors |
| `StageArchive.Validate` | scripts/stage_deploy_source.py:58-76 | an archive is accepted exactly when its paths are clean and distinct, its members are files and directories, no file is above another member and the deployment script is there |
| `StageArchive.Declare` | scripts/stage_deploy_source.py:59-71 | the first pass succeeds exactly on clean, distinct, regular members |
| `StageArchive.CheckParents` | scripts/stage_deploy_source.py:72-74 | the second pass succeeds exactly when no file stands where a directory is needed |
| `StageArchive.CleanPathMeans` | scripts/stage_deploy_source.py:61-69 | a path is accepted exactly if it leads, inside the tree, to the place it spells and has no colon or backslash |
| `StageArchive.ScriptIs` | scripts/stage_deploy_source.py:75 | the file every accepted archive must have is deploy/tencent/deploy.sh |
| `StageArchive.MakeDirs` | scripts/stage_deploy_source.py:94-97 | missing parents are created unless a file is in the way, and nothing else changes |
| `StageArchive.Extract` | scripts/stage_deploy_source.py:92-100 | extracting an accepted archive meets no collision in any member order and creates exactly its files and the directories above them |
| `StageSource.SafeOnTheWay` | scripts/stage_deploy_source.py:104-110 | each state between the renames keeps the deployed tree and is either refused by a later run or complete |
| `StageSource.EntryMeans` | scripts/stage_deploy_source.py:39-56 | a run enters exactly with nothing of an earlier run left and either nothing deployed, a tree alone, or a tree and a previous one whose identity is on record |
| `StageSource.RefusalMeans` | scripts/stage_deploy_source.py:39-56 | what each refusal tells about the layout |
| `StageSource.AppRestored` | scripts/stage_deploy_source.py:112-113 | the first handler rename acts exactly when the app was moved aside, and undoes that |
| `StageSource.PreviousRestored` | scripts/stage_deploy_source.py:114-115 | the second handler rename acts exactly when the previous tree was retired, and undoes that |
| `StageSource.PromotedTrees` | scripts/stage_deploy_source.py:119-126 | after the swap and the record only the retired tree separates the layout from the final one |
| `StageSource.StageHoldsArchive` | scripts/stage_deploy_source.py:88-100 | what the stage holds after the member loop is what extracting the archive creates |
| `StageSource.ReleaseNotEmpty` | scripts/stage_deploy_source.py:75-76 | a release from an accepted archive is never empty |
| `StageSource.EmptyTreeCanBeLost` | scripts/stage_deploy_source.py:111-118 | a layout, an accepted archive and an interrupt exist with which an empty deployed tree is overwritten |
| `StageSource.LostIsUnsafe` | scripts/stage_deploy_source.py:111-118 | in the one state where the handler overwrote an empty old tree, that tree is gone or a later run would be misled |
| `StageSource.SourceDir.ClearStage` | scripts/stage_deploy_source.py:101-117 | a completed stage removal restores the original layout; an interrupted one is refused by a later run |
| `StageSource.SourceDir.Extract` | scripts/stage_deploy_source.py:88-103 | the stage is filled member by member, every state on the way being safe, and a failure that is cleaned up restores the original layout |
| `StageSource.SourceDir.Rollback` | scripts/stage_deploy_source.py:111-118 | the handler restores the original layout from every point before the last rename and never loses the old tree except in the named case |
| `StageSource.SourceDir.Swap` | scripts/stage_deploy_source.py:104-118 | the swap completes exactly when no rename raises, and is undone exactly when one raises before the new tree is in place |
| `StageSource.SourceDir.WriteRecord` | scripts/stage_deploy_source.py:119-122 | a torn or missing record is always noticed by a later run |
| `StageSource.SourceDir.Finish` | scripts/stage_deploy_source.py:119-127 | the record, the retired tree and the archive are settled in an order in which every state is safe |
| `StageSource.SourceDir.StageSource` | scripts/stage_deploy_source.py:39-127 | the states of a run follow one another by single file-system operations; in each of them the deployed tree is at app or previous and a later run finds the swap not begun or complete, if and only if the old tree is not overwritten; failures before the swap restore the layout; refusals change nothing; success leaves new, previous and record in place |
| `StageSource.OneRunSafe` | scripts/stage_deploy_source.py:75-118 | a run that begins with an app that is absent or not empty is safe throughout and ends, or crashes, with such an app |
| `StageSource.RunsSafe` | scripts/stage_deploy_source.py:25-127 | over any series of runs, each from where the one before ended, was refused or crashed, every state of every run is safe if the app is absent or not empty to begin with |
| `StageSource.SourceDir.Try` | scripts/stage_deploy_source.py:25-127 | one run of a series: its states follow one another from where the series stands, end as its faults decide, and the disk is left in its last state or in the one it crashes in |
| `StageSource.SourceDir.StageRepeatedly` | scripts/stage_deploy_source.py:25-127 | making the runs yields exactly such a series and leaves the disk where its last run ended or crashed; with RunsSafe, every state of it is safe |

## Left out

- The container API, HTTP, environment parsing, signals and heartbeat writing of the ops agent; container lookup and restart are parameters with a duration.
- The command types and payload hashes an envelope carries, the browser-export check and the failure results before a restart: they add finishing statuses, not protocol steps.
- CommandTable.Table.Submit: does not model the replay of a repeated idempotency key and the check of the related job, which insert nothing.
- Cancellation and other command routes besides submission.
- HeartbeatWait.ReplacementHeartbeatSeen: for a poll interval of zero it takes for granted that the polls themselves take time up to the deadline; without that the loop does not end.
- One clock for all processes and the database: skew between hosts is not modelled.
- Schema changes, indexes, locks and dialect differences of the migrations; only their data statements are modelled.
- InvoiceBackfill.PhysicalUnique: takes physical ids as values that differ whenever store and number, or invoice id, differ, so a collision of truncated hashes is not modelled.
- Downgrades other than that of the round retirement, and the entry snapshots of the statement migration.
- FeeReconcile.Reconcile: does not model the list of individual differences, record type validation and the refund context, because they carry no further state.
- FeeReconcile.CompareRecords: does not model the list of differences and record type validation, for the same reason.
- CouponDetails.ParseDetails: does not model header lookup, text parsing and the statistics of the detail summary; rows are already classified into excluded and business rows.
- Amounts and rates are exact: no limit on decimal precision is modelled.
- RulePatch.RuleStore.PatchRules: digests are injective values, so fingerprint and version collisions are not modelled; the advisory lock and the actor lookup are not modelled.
- Validation of dump files, stat fingerprints, pin files and reports of backup retention: validity, pins and fingerprints are fields of a backup.
- RetentionPlan.MakePlan: takes records of equal timestamp in name order, as a scan lists them; with ties listed otherwise the code would prefer the one listed first.
- RetentionPlan.BackupDir.ApplyPlan: does not model a file changing between the second look and its removal.
- Checksums, symlink checks, disk capacity, file modes and tar decoding of staging; they refuse before anything changes and are one flag.
- StageArchive.Validate: does not tell apart the messages of a refused archive; a path is given by its parts, with the trailing slashes of a directory removed.
- StageSource.SourceDir.StageSource: assumes that a rename is atomic; that the overwritten tree is really gone also uses that directories existing at the same time have different inodes; loss of completed writes in a power failure is not modelled.
- Importers, workers, the web API, the front end, benchmarks and release gates: they add no property of this kind.
