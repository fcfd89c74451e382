# Verified model of the gateway's protocols and algorithms

The gateway coordinates several processes, clients and language-model sessions over one database. This
project models the parts of it that are real protocols or algorithms and proves what they keep over
whole runs:

| module | what it models |
|---|---|
| `GitTables`, `GitRuns`, `GitEffects`, `GitController` | leases with fencing tokens, compare-and-swap mirrors and journaled operations of the Git controller |
| `Previews` | versioned Git previews that are consumed once |
| `WorktreeLeases` | leases on sets of worktree resource keys |
| `SyncMerge` | merging replicated rows and tombstones |
| `BackupStore` | content-addressed backups with shared blobs and pruning |
| `AgentConversation`, `AgentMachine`, `AgentRuns`, `AgentEffects`, `AgentSession` | the agent session between its await points |
| `AgentEvents` | the bounded event log and the stream a client sees |
| `Artifacts`, `Base64` | artifact pruning and quotas, and the size measure under them |
| `JsonText`, `CanonicalJson`, `ActionScanner`, `ToolManifest` | the printer, the canonical text, the action scanner and the tool list of the agent protocol |
| `Workflows` | step validation with Kahn's cycle check |
| `ProgressPolicy`, `Supervisor` | the execution supervisor on a virtual clock |
| `PlannerStop` | the planning closure of a chat task racing with the stop route |
| `MaskedConfig` | masking secrets in a configuration tree and merging an edited mask back |
| `Common` | options, identifiers, trimming |

Where the source updates state in place there is a class whose methods are proved equal to a step
function, and the theorems are about arbitrary sequences of steps: every interleaving of every handler,
with arbitrary clock readings. Beside them, each step has theorems that say from outside when it is granted
and what it leaves behind. Each transaction of the database layer is one atomic step; each handler
of the agent session and of the planner is cut at its await points. Time, generated ids, hashes,
compression, collation order and the replies of the language model are parameters.

## Where code and promise differ

The model follows the code. For each difference a lemma shows the failure or the "iff" itself spans it, and
the one named with "iff" says exactly when the promise holds.

- A session can lose its way to the brain for good without being cancelled. The advance loop that returns
  before its first await clears its promise first and stores it afterwards (`AgentRuns.WedgedForever`,
  `LastRoundWedges`; the promise comes to be stored exactly as `EnterWedgesIff` and `StepWedgesIff` say); a
  reply that the parser throws on, such as a fenced `null`, leaves the session thinking (`ParserThrowEnds`);
  a batch that throws after accepting the pending call leaves it waiting for a tool (`HalfBatchEnds`).
  Exactly when no brain call is ever started again: `NeverCallsAgainIff`.
- A `maxRounds` that is a text but no number removes the round limit (`AgentRuns.UnboundedWithoutNumber`;
  `BoundedIffNumeric`).
- A tool call whose id was completed before can never be answered; the session waits until it is cancelled
  (`AgentRuns.ReusedCallIdBlocks`; `AnsweredIff`).
- The journal accepts rows for operations that do not exist yet, so the phase of an operation begun later
  can differ from the last one journaled for it (`GitRuns.JournalBeforeBegin`; `PhaseKeptIff`,
  `PhaseIsLastJournaledIff`).
- Replicas that saw the same rows end differently if two live rows disagree in version and stamp
  (`SyncMerge.DisagreeingRowsDiverge`; `ConvergesIff`). Keeping a stored target time changes the version of
  a row whose source time lies before 1970 (`OldSourceShiftsVersion`; `KeptTargetVersionIff`). An explicit
  zero stamp is compared as zero (`ExplicitZeroIsCompared`; it matters exactly as `ExplicitZeroMattersIff`
  says).
- Keys that tie in the collation make the canonical text depend on insertion order
  (`CanonicalJson.TiesShow`; `OrderIndependentIff`).
- Renewal does not look at expiry and revives what is left of a lapsed lease (`WorktreeLeases.RenewRevives`;
  it is whole again exactly when `RenewedIsFullIff` says).
- A declared size that is no number bypasses the size limits (`Artifacts.AdmittedBytes`; `LimitsItemsIff`).
- A stop cannot abort the scheduler of a task whose row was deleted (`PlannerStop.StopAbortsIff`), and does
  not stop a task to which the update route wrote a status unknown to it (`StopHaltsIff`, `StopSilencesIff`),
  nor the subtasks past the first fifty listed (`SubtaskLeftIff`).
- A cursor outside the retained range misses events or has them repeated (`AgentEvents.StreamIsExactIff`).
- A turn limit that rounds to zero milliseconds is announced with one millisecond left
  (`Supervisor.ZeroLimitIsMisannounced`; `TurnWarningIsTrueIff`, `TurnLimitIsZeroIff`).
- The alias table inherits members such as `constructor`, and a tool of that name does not survive a second
  normalization (`ToolManifest.NormalizeTwiceIff`).

## Model

| member | source | states |
|---|---|---|
| `Workflows.ValidateSteps` | gateway/routes/workflows.js:152-198 | A step list is accepted if and only if ids and titles are present, ids are unique, dependencies name steps and no path along dependencies returns to its start; an accepted one has a topological order; the cycle verdict is given exactly for closed lists with such a path; other faults are reported for the first offending step |
| `Workflows.CheckNames` | gateway/routes/workflows.js:153-159 | Names are accepted exactly when all are present, titled and distinct; otherwise the fault is that of the first step that has one, missing id before missing title before duplicate |
| `Workflows.CheckClosed` | gateway/routes/workflows.js:161-166 | Accepts exactly closed dependency lists; otherwise names the first unknown dependency of the first step that has one |
| `Workflows.BuildGraph` | gateway/routes/workflows.js:168-180 | In-degrees count listed dependencies with multiplicity, and successor lists hold every edge as often as it is listed |
| `Workflows.Drain` | gateway/routes/workflows.js:181-194 | The queue loop ends; what it visited is a duplicate-free, dependency-first list counted by `visited`; what it did not visit is empty or a set in which everyone waits for someone of the set |
| `Workflows.DequeueOne` | gateway/routes/workflows.js:186-193 | One iteration keeps the state of Kahn's algorithm: each id is queued once, exactly when its last dependency was dequeued |
| `Workflows.StuckHasCycle` | gateway/routes/workflows.js:181-195 | A nonempty set in which every step waits for another of the set contains a cycle, found by the pigeonhole principle |
| `Workflows.OrderExcludesCycle` | gateway/routes/workflows.js:168-197 | A graph with a topological order has no path that returns to its start, self-loops included |
| `Workflows.OrderableIffAcyclic` | gateway/routes/workflows.js:168-197 | For closed graphs the two notions, topological order and absence of cycles, coincide |
| `GitRuns.FencesAlways` | gateway/db/sqlite.js:5761-5926 | In every reachable state every stored lease carries its repository's last fence, no mirror carries a token that was never issued, and lease ids are unique |
| `GitRuns.TokensStrictlyIncrease` | gateway/db/sqlite.js:5761-5834 | Of two claims granted on one repository the later one gets the larger token, whatever happened in between and whatever the clocks read |
| `GitRuns.SupersededTokenIsDead` | gateway/db/sqlite.js:4973-5048 | Once a larger token was issued, every renew, assert, release, orphan release, stage or mirror swap presenting an older one is refused and changes no table, so the successor's lease stays |
| `GitRuns.SuccessorWaits` | gateway/db/sqlite.js:5761-5834 | Mutual exclusion over runs: if a repository is granted again without a release in between, the expiry its earlier holder was last told, by its claim or a renewal, has passed on the new claimant's clock |
| `GitRuns.LeaseStays` | gateway/db/sqlite.js:5761-5926 | Until it is released or followed by another grant, a granted lease stays stored with its token, operation and owner and with exactly the expiry its holder was last told |
| `GitRuns.HeldUntilIff` | gateway/db/sqlite.js:5761-5885 | A lease just granted or renewed asserts if and only if the asserting clock is before the expiry, which lies at least a second and by default thirty seconds after the granting clock |
| `GitRuns.ReleasedIsFree` | gateway/db/sqlite.js:5887-5926 | After a release or orphan release the next claim is granted whatever its clock reads, under a larger token than the released one |
| `GitRuns.MirrorChain` | gateway/db/sqlite.js:4973-5048 | The successful swaps of one mirror form a chain from its first row: each replaces the sha it expected, which the previous one accepted, by the candidate it was asked to accept; generations rise by one, tokens never decrease, and the row is what the last win made it |
| `GitRuns.ChainAt` | gateway/db/sqlite.js:4995-5034 | The k-th win of a chain expected generation k, made k + 1, accepted its candidate, and took the sha before it as its previous one |
| `GitRuns.OneWinnerPerGeneration` | gateway/db/sqlite.js:4995-5034 | In any run at most one swap wins per expected generation |
| `GitRuns.FailureChangesNothing` | gateway/db/sqlite.js:4973-5048 | A refused or throwing request leaves all tables as they were |
| `GitRuns.KeysAlways` | gateway/db/sqlite.js:5214-5264 | In every reachable state operations and idempotency keys correspond one to one |
| `GitRuns.BeginIsIdempotent` | gateway/db/sqlite.js:5214-5264 | Later begins under the same repository, type and idempotency key return the operation of the first and change nothing |
| `GitRuns.SettledForever` | gateway/db/sqlite.js:5445-5523 | An operation that left RUNNING never changes its status again |
| `GitRuns.RecoversOnce` | gateway/db/sqlite.js:5445-5523 | After one successful recovery every further recovery or stage of that operation is refused |
| `GitRuns.AcknowledgesOnce` | gateway/db/sqlite.js:5525-5584 | A registry recovery is applied once; later acknowledgements are at most replays and change nothing |
| `GitRuns.PhaseKeptIff` | gateway/db/sqlite.js:5325-5359 | A step keeps "phase equals last journaled phase" if and only if it is not a valid begin, under a new key and a new id, of an id that was already journaled, last under a different phase than the one it starts in |
| `GitRuns.PhaseIsLastJournaledIff` | gateway/db/sqlite.js:5325-5523 | Over every run, an operation is in its last journaled phase after each step if and only if no step creates it over a journal that ended in another phase |
| `GitRuns.PhaseIsLastJournaled` | gateway/db/sqlite.js:5325-5523 | In particular the phase is the last journaled one over every run that journals only for operations that exist |
| `GitRuns.JournalBeforeBegin` | gateway/db/sqlite.js:5325-5359 | The shortest run in which phase and journal differ: append for an unknown operation, then begin it |
| `GitController.Store.ClaimLease` | gateway/db/sqlite.js:5761-5834 | Takes exactly the claim step: refused while an unexpired lease stands, rolled back on a lease id in use elsewhere, otherwise the next fence and a fresh lease |
| `GitController.Store.RenewLease` | gateway/db/sqlite.js:5836-5861 | Takes exactly the renew step: identity, token and expiry must match |
| `GitController.Store.AssertLease` | gateway/db/sqlite.js:5863-5885 | Holds exactly for the unexpired lease that carries the last fence |
| `GitController.Store.ReleaseLease` | gateway/db/sqlite.js:5887-5903 | Takes exactly the release step, which removes only the caller's own lease |
| `GitController.Store.ReleaseOrphanedLease` | gateway/db/sqlite.js:5905-5926 | Takes exactly the orphan release step, which also matches operation and process |
| `GitRuns.ActiveFenceIsLatestGrant` | gateway/db/sqlite.js:4994-5007 | Whoever passes the fence test of a swap or a stage was granted the latest lease on the repository, for this operation and under this token, has not released it, and is within the expiry last told |
| `GitController.Store.CompareAndSwapMirror` | gateway/db/sqlite.js:4973-5048 | Takes exactly the swap step, with invalid, stale-fence and failed-comparison outcomes |
| `GitController.Store.BeginOperation` | gateway/db/sqlite.js:5214-5264 | Takes exactly the begin step |
| `GitController.Store.AppendJournal` | gateway/db/sqlite.js:5325-5359 | Takes exactly the append step: a journal row always, the operation's phase only if it exists |
| `GitController.Store.StageRecovery` | gateway/db/sqlite.js:5361-5443 | Takes exactly the stage step; its "CAS failed" throw is proved unreachable |
| `GitController.Store.RecoverOperation` | gateway/db/sqlite.js:5445-5523 | Takes exactly the recover step; its "CAS failed" throw is proved unreachable |
| `GitController.Store.AcknowledgeRegistryRecovery` | gateway/db/sqlite.js:5525-5584 | Takes exactly the acknowledge step; its "CAS failed" throw is proved unreachable |
| `GitEffects.ClaimGrantedIff` | gateway/db/sqlite.js:5761-5834 | A complete claim is granted if and only if no unexpired lease stands and its lease id is free; its token is the next one and the lease stored is the claimant's in every field |
| `GitEffects.RenewedIff` | gateway/db/sqlite.js:5836-5861 | A renewal succeeds if and only if it comes from the owner of an unexpired lease; only heartbeat and expiry change |
| `GitEffects.HeldIff` | gateway/db/sqlite.js:5863-5885 | In every consistent state an assertion holds if and only if it comes from the owner of an unexpired lease |
| `GitEffects.ReleasedIff` | gateway/db/sqlite.js:5887-5926 | A lease is released if and only if its owner asks, for an orphaned one naming its operation and process besides; the fence stays |
| `GitEffects.SwappedIff` | gateway/db/sqlite.js:4973-5048 | A complete swap succeeds if and only if its operation holds the fence and the stored sha and generation are the expected ones; the mirror then holds the candidate under the operation, token and time of the swap |
| `GitEffects.ActiveFenceIff` | gateway/db/sqlite.js:4994-5007 | In every consistent state the fence test passes if and only if the operation holds the unexpired lease and presents the last token |
| `GitEffects.BegunIff` | gateway/db/sqlite.js:5214-5264 | A complete begin creates an operation if and only if neither its id nor its key is known; it runs, in the phase given or else PREVIEWED, without token, code or result |
| `GitEffects.AppendedAlways` | gateway/db/sqlite.js:5325-5359 | A complete entry is always journaled last; a known operation takes over its phase, its clock and its token if it brings one, and nothing else |
| `GitEffects.StagedIff` | gateway/db/sqlite.js:5361-5443 | A complete stage succeeds if and only if the operation runs, is the caller's, and holds the fence in the caller's name; phase and result are stored and journaled under the token |
| `GitEffects.RecoveredIff` | gateway/db/sqlite.js:5445-5523 | A complete recovery is granted if and only if the operation still runs, is the caller's, and was last updated when expected; it then has the status, phase, code and result asked for, is completed, and journaled |
| `GitEffects.OnlyTerminalRecoveries` | gateway/db/sqlite.js:5445-5460 | Incomplete recoveries and those to another status or phase are refused |
| `GitEffects.AcknowledgedIff` | gateway/db/sqlite.js:5525-5584 | A complete acknowledgement is applied if and only if the recovery of a succeeded operation is pending, and repeated if and only if it was applied; the result records time and generations and keeps the rest |
| `GitEffects.OtherRepositoriesStay` | gateway/db/sqlite.js:5761-5926 | Requests about one repository leave leases and fences of all others alone |
| `GitEffects.OtherMirrorsStay` | gateway/db/sqlite.js:4973-5048 | A mirror changes only by a swap of its own key |
| `GitEffects.OtherOperationsStay` | gateway/db/sqlite.js:5214-5584 | An operation changes only by a request that names it |
| `GitEffects.TablesApart` | gateway/db/sqlite.js:4973-5926 | Requests about operations touch no lease, fence or mirror, and all others touch no operation, key or journal |
| `Previews.GaplessAlways` | gateway/db/sqlite.js:5073-5149 | In every reachable state the versions of each (repository, kind, branch) are 1, 2, ..., n without gap or repetition |
| `Previews.CreateTakesNextVersion` | gateway/db/sqlite.js:5073-5116 | The version given to a new preview is the first that its key has not used |
| `Previews.RowForever` | gateway/db/sqlite.js:5124-5149 | A preview is never dropped or reopened: its only change ever is from active to consumed or to expired |
| `Previews.ConsumedByOne` | gateway/db/sqlite.js:5124-5149 | At most one operation ever consumes a preview, strictly before its expiry: after it, a consumption succeeds if and only if it is that operation replaying |
| `Previews.ConsumableUntilIff` | gateway/db/sqlite.js:5073-5149 | A new preview can be consumed by any operation exactly until its expiry, at least a second after its creation |
| `Previews.CreatedIff` | gateway/db/sqlite.js:5073-5116 | A complete create succeeds if and only if its id is new; the preview is active under its key and lives until the expiry given, at least a second, or five minutes without one |
| `Previews.ExpiredForGood` | gateway/db/sqlite.js:5124-5149 | Once somebody came too late, nobody ever consumes the preview, whatever the clocks read |
| `Previews.ConsumeTouchesOne` | gateway/db/sqlite.js:5124-5149 | A consumption touches no other preview and none that is not active |
| `Previews.Store.SelectMaxVersion` | gateway/db/sqlite.js:5073-5116 | Finds the greatest version of a key, zero if it has none |
| `Previews.Store.CreatePreview` | gateway/db/sqlite.js:5073-5116 | Takes exactly the create step |
| `Previews.Store.ConsumePreview` | gateway/db/sqlite.js:5124-5149 | Takes exactly the consume step, with all its refusals; its lost-race branch is unreachable |
| `WorktreeLeases.GrantedAlways` | gateway/db/sqlite.js:1062-1170 | With fresh tokens, in every reachable state each row belongs to the grant of its token and all rows of a token share one expiry |
| `WorktreeLeases.FullCountHoldsAll` | gateway/db/sqlite.js:1214-1227 | A holder whose active rows are as many as the keys it was granted holds exactly those keys, unexpired |
| `WorktreeLeases.FullHoldersAreDisjoint` | gateway/db/sqlite.js:1062-1227 | In every reachable state two holders that each count all their keys have no key in common, even if they read different clocks |
| `WorktreeLeases.ClaimsAllOrNone` | gateway/db/sqlite.js:1062-1122 | After a claim its token holds either all requested keys or none |
| `WorktreeLeases.ClaimedUntilIff` | gateway/db/sqlite.js:1214-1227 | A holder counts all the keys of a claim just granted if and only if the clock is before its expiry |
| `WorktreeLeases.ClaimSparesTheLiving` | gateway/db/sqlite.js:1086-1099 | A claim leaves every unexpired row as it is |
| `WorktreeLeases.RenewRevives` | gateway/db/sqlite.js:1124-1139 | Renewal makes exactly the rows the token still has active again, expired ones included |
| `WorktreeLeases.RenewedIsFullIff` | gateway/db/sqlite.js:1124-1139 | A renewed grant counts all its keys if and only if every one of them still has its row, expired or not |
| `WorktreeLeases.TakenKeyIsLost` | gateway/db/sqlite.js:1062-1122 | A claim that takes over a key of an older grant leaves that grant without it |
| `WorktreeLeases.NeverFullAgain` | gateway/db/sqlite.js:1124-1139 | A grant that lost a key never counts all its keys again, however often it is renewed |
| `WorktreeLeases.ClaimGrantedIff` | gateway/db/sqlite.js:1062-1122 | A complete claim is granted if and only if each of its keys is absent or expired; the table then has the old rows and one for each key |
| `WorktreeLeases.GrantedRow` | gateway/db/sqlite.js:1100-1119 | Each row granted carries the claim's token, kind, task and owner and expires fifteen seconds after it by default, and no earlier than one second |
| `WorktreeLeases.RefusedClaim` | gateway/db/sqlite.js:1062-1099 | A claim in conflict has cleared the expired rows of its keys and nothing else; an incomplete one nothing |
| `WorktreeLeases.ReleaseIsExact` | gateway/db/sqlite.js:1141-1170 | A release removes and counts exactly the rows it names: by token and owner, by owner, or by task and kind |
| `WorktreeLeases.ReleasedAreFree` | gateway/db/sqlite.js:1141-1170 | Keys whose rows were released are granted to the next claim, whatever its clock reads |
| `WorktreeLeases.SettleIsExact` | gateway/db/sqlite.js:1002-1041 | Settling a task removes a row if and only if it is one of its AI rows and none of these, and no runtime, is active |
| `WorktreeLeases.RenewIsExact` | gateway/db/sqlite.js:1124-1139 | A renewal changes the times of the rows of token and owner, and nothing else |
| `WorktreeLeases.CountIs` | gateway/db/sqlite.js:1214-1227 | The count is that of the holder's rows that expire later |
| `WorktreeLeases.Store.ClaimLease` | gateway/db/sqlite.js:1062-1122 | Takes exactly the claim step: reaps expired rows of the keys, even when it then finds a conflict, and inserts all keys or none |
| `WorktreeLeases.Store.InsertAll` | gateway/db/sqlite.js:1100-1119 | The inserts of a claim never meet a row: the keys are distinct and free |
| `WorktreeLeases.Store.RenewLease` | gateway/db/sqlite.js:1124-1139 | Moves the expiry of exactly the rows of token and owner and reports how many |
| `WorktreeLeases.Store.ReleaseLease` | gateway/db/sqlite.js:1141-1149 | Removes exactly the rows of token and owner and reports how many |
| `WorktreeLeases.Store.ReleaseOwnerLeases` | gateway/db/sqlite.js:1151-1159 | Removes exactly the rows of an owner |
| `WorktreeLeases.Store.ReleaseTaskLeases` | gateway/db/sqlite.js:1161-1170 | Removes exactly the rows of a task of one kind |
| `WorktreeLeases.Store.SettleInactiveTask` | gateway/db/sqlite.js:1002-1041 | Removes the expired AI worktree rows of a task, and only if nothing of it is active |
| `SyncMerge.MergedIsWinner` | gateway/db/sqlite.js:3321-3425 | If no two live rows disagree, the merge of any sequence ends in the greatest stamp, a deletion winning ties, and a live result is one of the merged rows: it has its version, payload and times, its target time unless that was left empty |
| `SyncMerge.Converges` | gateway/db/sqlite.js:3321-3425 | Replicas that merged the same exports, in any order and with any repetition, agree on whether the item lives and on its stamp, if no two of the live rows disagree |
| `SyncMerge.NeverBoth` | gateway/db/sqlite.js:3321-3425 | A merge never leaves a live row and a tombstone under one key |
| `SyncMerge.LiveTakenIff` | gateway/db/sqlite.js:3321-3400 | A live row is taken over if and only if no tombstone is as new and the stored row compares less; its content then replaces the stored content, except that an empty target time keeps the stored one |
| `SyncMerge.DeletionTakenIff` | gateway/db/sqlite.js:3402-3425 | A deletion is taken over if and only if no tombstone is as new and no live row newer |
| `SyncMerge.StampIs` | gateway/db/sqlite.js:3321-3327 | A row goes by its own stamp, else by the latest of its times, else by the clock |
| `SyncMerge.ComparesLexically` | gateway/db/sqlite.js:3007-3031 | Rows compare by the later of source and target time, then by the later of synchronization and update time, then by stamp |
| `SyncMerge.KeptTargetVersionIff` | gateway/db/sqlite.js:2999-3031 | Keeping the stored target time leaves the version unchanged if and only if the source time is not before 1970 or the kept time counts as zero |
| `SyncMerge.OldSourceShiftsVersion` | gateway/db/sqlite.js:3321-3400 | A row from five milliseconds before 1970 is stored under an earlier version than it was sent with |
| `SyncMerge.ConvergesIff` | gateway/db/sqlite.js:3321-3425 | For any exported live rows: replicas that receive the same exports over them, with any deletions, always agree if and only if no two of the rows disagree |
| `SyncMerge.DisagreeingRowsDiverge` | gateway/db/sqlite.js:3021-3031 | For every two exported live rows that disagree, a deletion stamped as the greater version leaves the item dead in one order of arrival and alive in another |
| `SyncMerge.ExplicitZeroMattersIff` | gateway/db/sqlite.js:3325-3343 | Carrying a zero stamp explicitly changes what a merge does if and only if no newer tombstone stands and the stored row has the incoming authority and change and a stamp from zero up to below the one it would be given |
| `SyncMerge.ExplicitZeroIsCompared` | gateway/db/sqlite.js:3339-3343 | In that case the stored row is kept, which the incoming one would replace otherwise |
| `SyncMerge.Store.MergeRow` | gateway/db/sqlite.js:3321-3400 | Changes the one key exactly as the merge function says and no other |
| `SyncMerge.Store.MergeTombstone` | gateway/db/sqlite.js:3402-3425 | A deletion replaces the live row and raises the tombstone unless either is newer |
| `BackupStore.PruneKeepsNewest` | gateway/db/sqlite.js:4634-4669 | Pruning leaves exactly min(keep, n) rows of the source, each newer than every row it removed |
| `BackupStore.PruneSparesOthers` | gateway/db/sqlite.js:4634-4669 | Pruning changes no remaining row and removes none of another source |
| `BackupStore.PruneLeaves` | gateway/db/sqlite.js:4634-4645 | A prune asked for 1 to 1000 rows leaves that many, if there are; asked for more it leaves 1000, for none 48 |
| `BackupStore.PrunedAreOlder` | gateway/db/sqlite.js:4637-4645 | A removed row is older than every row left of its source, or of the same age with an earlier id |
| `BackupStore.InsertedIff` | gateway/db/sqlite.js:4589-4618 | An insert succeeds if and only if its id is new; it adds the row as given and at most one blob |
| `BackupStore.CompressedIff` | gateway/db/sqlite.js:4551-4564 | A new blob is stored compressed if and only if that is shorter |
| `BackupStore.LatePruneTakesStale` | gateway/db/sqlite.js:4634-4658 | Whatever other processes do between choice and deletion, a prune removes from its source just the rows it chose, and every row it knew and spared is newer than each of them |
| `BackupStore.LatePruneKeepsNewest` | gateway/db/sqlite.js:4634-4658 | If the others only inserted, exactly the newest rows there were at the choice and everything inserted since remain |
| `BackupStore.OverlappingPrunes` | gateway/db/sqlite.js:4634-4658 | Two prunes of one source that chose at the same time remove together what the stricter one removes alone |
| `BackupStore.KeptAlways` | gateway/db/sqlite.js:4589-4669 | In every reachable state the stored blobs are exactly those some backup refers to, each decodes to data of its own hash and is no larger than it, and each row has the source and time it was inserted with, also if prunes delete rows they chose long before |
| `BackupStore.BackupsReadBack` | gateway/db/sqlite.js:4714-4725 | After any inserts and prunes every remaining backup reads back as the data it was inserted with, shared blobs included |
| `BackupStore.Store.InsertBackup` | gateway/db/sqlite.js:4589-4618 | Adds the row and, if new, its blob; a taken id leaves both tables as they were |
| `BackupStore.Store.SelectNewestFirst` | gateway/db/sqlite.js:4634-4648 | Lists the rows of a source, each once, newest first, ties by id |
| `BackupStore.Store.SelectStale` | gateway/db/sqlite.js:4634-4650 | Chooses exactly the rows with at least `keep` newer ones of their source |
| `BackupStore.Store.DeleteStale` | gateway/db/sqlite.js:4651-4658 | Deletes the chosen rows, then exactly the blobs nobody refers to any more |
| `BackupStore.Store.PruneBackups` | gateway/db/sqlite.js:4634-4669 | Uninterrupted, removes exactly the stale rows and their unshared blobs and reports how many rows |
| `AgentRuns.OneCallInFlight` | gateway/services/agent-session.js:447-531 | In every interleaving calls started and replies received differ by whether one call is in flight, so there is never a second one |
| `AgentRuns.RoundsCountAttempts` | gateway/services/agent-session.js:467-485 | The round counter is the number of brain calls started plus the number of attempts that threw before their await |
| `AgentRuns.NoCallAfterCancel` | gateway/services/agent-session.js:620-631 | After a cancel no request ever starts or attempts a brain call, even if a late reply overwrites the status |
| `AgentRuns.FreshLimitIff` | gateway/services/agent-session.js:391-427 | The round limit a session is created with lies between 1 and 200 exactly when the settings used are numbers |
| `AgentRuns.NumericKeptIff` | gateway/services/agent-session.js:379-389 | A step keeps the limit a number between 1 and 200 exactly when it does not configure a text that is no number |
| `AgentRuns.AtMost200Calls` | gateway/services/agent-session.js:447-485 | While the settings are numbers a session starts or attempts at most 200 brain calls in its life, however often the limit is changed meanwhile |
| `AgentRuns.BoundedIffNumeric` | gateway/services/agent-session.js:451-508 | The calls a thinking session will still start are bounded at all if and only if its limit is a number |
| `AgentRuns.UnboundedWithoutNumber` | gateway/services/agent-session.js:451-508 | Without a numeric limit every reply that is no action starts another call |
| `AgentRuns.StepRecords` | gateway/services/agent-session.js:498-606 | A step records at most one entry; a tool entry is for the call that was pending, under its name and arguments, and never for a call completed before |
| `AgentRuns.AlwaysGood` | gateway/services/agent-session.js:447-631 | In every reachable state each call id is in the history at most once and exactly the completed ids are, recent is the last six entries, the summary is bounded, and a pending call means waiting for its tool with no brain call in flight |
| `AgentRuns.FreshGood` | gateway/services/agent-session.js:391-427 | A new session satisfies everything the theorems over runs start from |
| `AgentRuns.ResubmitIsNoOp` | gateway/services/agent-session.js:572-606 | Submitting results of completed calls again leaves the session as it is and starts nothing |
| `AgentRuns.WedgedForever` | gateway/services/agent-session.js:447-531 | Once a settled promise is stored no request starts a brain call again |
| `AgentRuns.EnterWedgesIff` | gateway/services/agent-session.js:447-531 | Entering the loop wedges a session just set running if and only if it is cancelled, out of rounds, or the attempt to call the brain throws before its await |
| `AgentRuns.NeverCallsAgainIff` | gateway/services/agent-session.js:447-631 | A session never starts a brain call again, in any continuation, if and only if it is cancelled, holds a settled promise, or is idle and either waits for a call it cannot take a result for or looks busy with no call pending |
| `AgentRuns.ParserThrowEnds` | gateway/services/agent-session.js:486-531 | A reply the parser throws on ends all brain calls of the session without cancelling it |
| `AgentRuns.HalfBatchEnds` | gateway/services/agent-session.js:570-606 | A batch that throws after it accepted the pending call ends all brain calls: the session waits for a tool with no call pending |
| `AgentRuns.StickyAlways` | gateway/services/agent-session.js:620-631 | In every reachable state a cancelled status means a set abort flag |
| `AgentRuns.StepWedgesIff` | gateway/services/agent-session.js:447-609 | A settled promise comes to be stored in exactly those requests that find the session idle, pass the checks of a turn or of a result batch, and meet a cancel, used-up rounds or a throw before the await |
| `AgentRuns.LastRoundWedges` | gateway/services/agent-session.js:567-609 | A tool result accepted when the rounds are used up wedges the session |
| `AgentRuns.AnsweredIff` | gateway/services/agent-session.js:572-606 | A result under the pending call's id is recorded under that call's name and arguments, and ends the wait, if and only if the id was not completed before |
| `AgentEffects.CallBecomesPending` | gateway/services/agent-session.js:511-522 | A reply with a tool call makes that call pending and the session wait for it |
| `AgentEffects.CallIsAnswered` | gateway/services/agent-session.js:511-606 | The result submitted next is recorded under the id, name and arguments the reply asked for, and ends the wait |
| `AgentEffects.ReplyEnds` | gateway/services/agent-session.js:480-497 | An answer completes the session and a failed call fails it; nothing else changes but that no call is in flight |
| `AgentEffects.MalformedIsRecorded` | gateway/services/agent-session.js:498-509 | A reply that is no action is recorded with its error |
| `AgentEffects.ReplyThrowsIff` | gateway/services/agent-session.js:486-531 | A reply throws if and only if the parser does; then only the promise is cleared |
| `AgentEffects.FreshIs` | gateway/services/agent-session.js:391-427 | A new session is idle and empty, and its first turn calls the brain |
| `AgentEffects.NobodyListens` | gateway/services/agent-session.js:447-531 | Without a call in flight there is nothing to reply to |
| `AgentEffects.TurnStartsIff` | gateway/services/agent-session.js:533-565 | A turn starts if and only if its content checks out and the session is not cancelled, waits for no tool and is not at work; otherwise it throws and changes nothing |
| `AgentEffects.LoopOutcome` | gateway/services/agent-session.js:447-485 | The loop does nothing after a cancel, ends in reached_max at the limit, and else spends one round on a call, which is in flight unless it broke |
| `AgentEffects.LimitReachedIff` | gateway/services/agent-session.js:457-466 | The limit is reached if and only if as many rounds are spent as it says |
| `AgentEffects.RoundsAreUsed` | gateway/services/agent-session.js:451-508 | A session that gets no usable reply starts exactly as many calls as it has rounds left, and then ends |
| `AgentEffects.LimitIs` | gateway/services/agent-session.js:384-401 | A number asked for becomes the limit, held between 1 and 200; without one an existing limit stays, and a new session takes the server's setting or twelve |
| `AgentEffects.OneResult` | gateway/services/agent-session.js:572-606 | A result throws without an id or for a call that is not pending, is skipped for a completed one, and accepted otherwise |
| `AgentEffects.BatchIsInOrder` | gateway/services/agent-session.js:572-606 | A batch is its results one after the other, up to the first that throws |
| `AgentEffects.SubmitThrowsIff` | gateway/services/agent-session.js:572-609 | A submission throws if and only if its batch does, and keeps what the batch accepted before |
| `AgentEffects.CancelIs` | gateway/services/agent-session.js:620-631 | A cancel sets the flag, withdraws the pending call and touches nothing else |
| `AgentEffects.ToolCallsAnnounced` | gateway/services/agent-session.js:520-522 | A tool call is announced if and only if one becomes pending, and withdrawn if and only if a cancel finds one |
| `AgentEffects.EndsAnnounced` | gateway/services/agent-session.js:457-497 | An end is announced if and only if an answer completes the session or its rounds run out; an error with every failed or broken call and every cancel; a start with every turn |
| `AgentEffects.TextAnnounced` | gateway/services/agent-session.js:474-486 | Usage is announced with every reply that brought it, text with every interrupt and every chunk of a call in flight |
| `AgentEffects.SummaryAlways` | gateway/services/agent-session.js:196-207 | In every reachable state the summary is the lines of all entries but the last six, in order, as long as they fit |
| `AgentEffects.FoldedAppendsLines` | gateway/services/agent-session.js:197-201 | Folding appends the lines of all but the last six entries, oldest first |
| `AgentEffects.LineIs` | gateway/services/agent-session.js:198-200 | The line of an entry: name or "action", arguments up to 300 characters, outcome, and result, error or raw reply up to 500 |
| `AgentEffects.SummaryIsCut` | gateway/services/agent-session.js:203-206 | A summary is cut, to its last 6000 characters, and announced if and only if it is longer |
| `AgentEffects.DigitsRead` | gateway/services/agent-session.js:28-31 | The number of missing characters is told in decimal digits that read back as it |
| `AgentEffects.CompactCuts` | gateway/services/agent-session.js:28-31 | A longer text is cut to its beginning and says how much is missing |
| `AgentRuns.ReusedCallIdBlocks` | gateway/services/agent-session.js:511-606 | While a call with a used id is pending, no run without a cancel answers it, records anything or starts a call |
| `AgentRuns.LogStaysContiguous` | gateway/services/agent-session.js:184-194 | Whatever a run appends, ids are contiguous and the last min(2000, last id) events are retained |
| `AgentRuns.RunStreamIsExact` | gateway/routes/agent-v2.js:190-195 | A client that connects at any point of a run, with a cursor the log still covers, has been sent every later event once and in order |
| `AgentSession.Session.constructor` | gateway/services/agent-session.js:391-427 | A new session is in the initial state and has announced itself |
| `AgentSession.Session.AdvanceSession` | gateway/services/agent-session.js:447-531 | Enters the loop up to its first await, or to a prompt or call that throws before it, storing the promise last |
| `AgentSession.Session.BrainReturned` | gateway/services/agent-session.js:470-531 | Resumes the loop at the end of a brain call up to the next await: state, calls started, throw and events as the step says |
| `AgentSession.Session.StartTurn` | gateway/services/agent-session.js:533-565 | Starts a turn or throws for a busy or cancelled session and for missing or unverified content |
| `AgentSession.Session.AcceptResults` | gateway/services/agent-session.js:567-606 | The batch loop keeps what it accepted before the item it throws on |
| `AgentSession.Session.SubmitToolResults` | gateway/services/agent-session.js:567-609 | Accepts the batch, then advances only if something was accepted |
| `AgentSession.Session.CancelSession` | gateway/services/agent-session.js:620-631 | Sets the abort flag, withdraws the pending call and reports both |
| `AgentSession.Session.NoteText` | gateway/services/agent-session.js:611-618 | An interrupt, like a streamed chunk, appends one text event and leaves the session as it is |
| `AgentSession.Session.Configure` | gateway/services/agent-session.js:374-392 | Recomputes the round limit of an existing session |
| `AgentSession.Session.RecordEntry` | gateway/services/agent-session.js:196-207 | Records an entry and folds; reports a compaction exactly when the summary grew too long |
| `AgentConversation.FoldSummary` | gateway/services/agent-session.js:196-207 | Keeps the last six steps, folds every older one into the summary in order, and cuts the summary to its last 6000 characters behind a fixed prefix |
| `AgentConversation.RecordKeepsBounds` | gateway/services/agent-session.js:196-207 | Recording keeps recent equal to the tail of the whole history and the summary within its bound |
| `AgentConversation.RecordKeepsOnce` | gateway/services/agent-session.js:585-606 | Recording a call that was not completed keeps history and completed calls in one-to-one correspondence |
| `AgentEvents.AppendKeepsContiguous` | gateway/services/agent-session.js:184-194 | Appending keeps the retained events the newest min(2000, last id), contiguous, ending in the new one |
| `AgentEvents.StreamCovers` | gateway/routes/agent-v2.js:190-195 | From a covered cursor, replay followed by live events is every later id once, in order |
| `AgentEvents.StreamIsExactIff` | gateway/routes/agent-v2.js:190-195 | It is exactly then that a client which sees at least one live event gets this |
| `AgentEvents.EventLog.AppendEvent` | gateway/services/agent-session.js:184-194 | Every listener is sent the new event once, and the log stays contiguous |
| `AgentEvents.EventLog.Connect` | gateway/routes/agent-v2.js:190-195 | Replays what the log retains past the cursor before registering |
| `AgentEvents.DisconnectedHearsNothing` | gateway/routes/agent-v2.js:190-205 | Once disconnected a client is sent nothing, whatever is appended and whoever else comes and goes, until it connects again |
| `AgentEvents.ConnectedHearsAll` | gateway/routes/agent-v2.js:190-205 | A client connected with a covered cursor has been sent, at any later time, exactly the events after its cursor, once and in order, whoever else comes and goes |
| `AgentEvents.HistoryRetained` | gateway/services/agent-session.js:184-188 | After any run the log holds the last 2000 events of its history, kinds included |
| `AgentEvents.StreamIsHistory` | gateway/routes/agent-v2.js:190-205 | What a connected client has been sent are the very events of the history past its cursor, kinds included |
| `Artifacts.PruneExpired` | gateway/services/agent-session.js:139-150 | The two shifting loops compute the longest tail by age that fits both limits |
| `Artifacts.PruneKeepsNewest` | gateway/services/agent-session.js:139-150 | What remains is a tail of the unexpired artifacts ordered by age, with their multiplicities, within both limits, and no longer tail is |
| `Artifacts.AlwaysWithinQuotas` | gateway/services/agent-session.js:633-661 | In every reachable state count, per-item and total limits hold by the sizes counted |
| `Artifacts.AdmittedIff` | gateway/services/agent-session.js:633-661 | An artifact with a numeric size is admitted if and only if at most 199 are held, it has at most eight megabytes and all at most 64; it is then held last, under the longer of its measured and declared size |
| `Artifacts.RefusalNames` | gateway/services/agent-session.js:637-647 | A refusal names the count before the size and the size before the total |
| `Artifacts.FreshIff` | gateway/services/agent-session.js:141-141 | An artifact is kept by age for exactly seven days |
| `Artifacts.SortIsStable` | gateway/services/agent-session.js:142-142 | Artifacts of the same moment stay in the order they came |
| `Artifacts.AdmittedBytes` | gateway/services/agent-session.js:633-661 | An admitted artifact decodes to at most the item limit, unless its declared size is no number: then it is admitted whenever there is room in the count |
| `Artifacts.LimitsItemsIff` | gateway/services/agent-session.js:126-129 | The item limit binds the decoded bytes of every admitted artifact if and only if the declared size is a number |
| `Artifacts.BytesAlwaysWithinQuota` | gateway/services/agent-session.js:633-661 | Over runs whose declared sizes are numbers the decoded bytes of all artifacts held never exceed the session limit |
| `Artifacts.Shelf.AddArtifact` | gateway/services/agent-session.js:633-661 | Prunes first, then admits or refuses for count, item or total limit, in this order |
| `Base64.DecodedBytesIsLength` | gateway/services/agent-session.js:119-124 | For every byte string, and any white space spread over its padded encoding (section 4 of RFC 4648), the measure is the number of bytes |
| `Base64.UnpaddedBytesIsLength` | gateway/services/agent-session.js:119-124 | It is so for encodings without padding, too |
| `Base64.GroupSpells` | gateway/services/agent-session.js:119-124 | The encoding measured is that of section 4 of RFC 4648: four symbols spell the bits of three bytes |
| `Base64.BitsOfSymbol` | gateway/services/agent-session.js:119-124 | Its alphabet is the standard one |
| `JsonText.TextIsInjective` | gateway/services/agent-protocol.js:94-102 | Values without undefined parts that print alike before any delimiter are equal: printed text determines the value |
| `JsonText.QuoteIsInjective` | gateway/services/agent-protocol.js:96-101 | Escaped strings (section 7 of RFC 8259) determine the string and where it ends |
| `JsonText.QuoteReadsBack` | gateway/services/agent-protocol.js:96-101 | Every escaped string reads back as itself by the rules of section 7 of RFC 8259 |
| `JsonText.EscapedIff` | gateway/services/agent-protocol.js:96-101 | Escaped are exactly quotes, backslashes and control characters |
| `JsonText.LiteralsAre` | gateway/services/agent-protocol.js:96-101 | How null, booleans, numbers and empty arrays and objects print |
| `CanonicalJson.CanonicalPrints` | gateway/services/agent-protocol.js:94-102 | The canonical text is the JSON text of the value with keys ordered, undefined properties dropped and undefined items null |
| `CanonicalJson.CanonicalDeterminesNormal` | gateway/services/agent-protocol.js:94-102 | Values that are not null have equal canonical texts if and only if their normal forms are equal |
| `CanonicalJson.CanonicalIsInjective` | gateway/services/agent-protocol.js:94-102 | Equal canonical texts mean equal values up to key order and undefined parts at every depth |
| `CanonicalJson.NothingIsEmptyIff` | gateway/services/agent-protocol.js:95-97 | The canonical text is empty if and only if the value is null or undefined; below the top both print null |
| `CanonicalJson.KeysInOrder` | gateway/services/agent-protocol.js:98-101 | Printed are exactly the keys with a defined value, in the order of the collation |
| `CanonicalJson.OrderIndependentIff` | gateway/services/agent-protocol.js:98-101 | Values equal up to key order and undefined parts always have one canonical text if and only if the collation has no ties |
| `CanonicalJson.TiesShow` | gateway/services/agent-protocol.js:98-101 | Any two different keys in one place of the collation give two objects that differ in insertion order only and print differently |
| `ActionScanner.FirstJsonObject` | gateway/services/agent-protocol.js:122-147 | The loop over depth, string and escape flags stops where the recursive scan of the text does |
| `ActionScanner.ScanObject` | gateway/services/agent-protocol.js:128-145 | From an opening brace the scan ends exactly at the brace that closes it, whatever strings with braces, quotes and escapes stand between |
| `ActionScanner.FindsBareObject` | gateway/services/agent-protocol.js:122-147 | In a text without two fences the first balanced object is returned exactly, after any prefix without an opening brace and before any suffix |
| `ActionScanner.FindsPrintedObject` | gateway/services/agent-protocol.js:122-147 | For every JSON object, printed after such a prefix and before any suffix, exactly its printed text is returned |
| `ActionScanner.FoundObjectsAgree` | gateway/services/agent-protocol.js:122-147 | Two replies yield the same text if and only if they carry the same object |
| `ActionScanner.FindsFencedObject` | gateway/services/agent-protocol.js:122-125 | A fenced object comes back without fence, language tag and surrounding white space, whatever precedes the first fence, single backticks included |
| `ActionScanner.UnfencedWithoutFence` | gateway/services/agent-protocol.js:124-125 | A text without three backticks in a row is never taken for fenced |
| `ActionScanner.FencedIff` | gateway/services/agent-protocol.js:124-125 | A text is read as fenced if and only if it has two fences that do not overlap; one that was never closed is none |
| `ActionScanner.FenceWins` | gateway/services/agent-protocol.js:124-125 | Whatever the first fence holds up to the next is the answer, trimmed and without a leading json tag |
| `ActionScanner.JsonTagIff` | gateway/services/agent-protocol.js:124-124 | The tag is json in any letter case |
| `ActionScanner.TrimIs` | gateway/services/agent-protocol.js:124-125 | Trimming removes white space at both ends and leaves none there |
| `ActionScanner.FoundIff` | gateway/services/agent-protocol.js:126-146 | An unfenced text yields a given object if and only if that is the balanced text at its first opening brace: quotes, escapes and braces matched |
| `ActionScanner.NothingFoundIff` | gateway/services/agent-protocol.js:126-146 | An unfenced text yields nothing if and only if no balanced object begins at its first opening brace |
| `ToolManifest.NormalizeToolManifest` | gateway/services/agent-protocol.js:71-87 | The loop with its set of seen names computes the first usable declaration of each name |
| `ToolManifest.KeepsFirstDeclarations` | gateway/services/agent-protocol.js:71-87 | A tool is kept if and only if its name is usable and no earlier entry resolves to that name |
| `ToolManifest.DedupIsDistinct` | gateway/services/agent-protocol.js:71-87 | Kept names are distinct and never empty or "final" |
| `ToolManifest.KeepsOrder` | gateway/services/agent-protocol.js:71-87 | Kept tools stay in the order of their first declarations |
| `ToolManifest.DeclaredAs` | gateway/services/agent-protocol.js:75-84 | A tool is kept under the alias of its trimmed name, with its own description and with its own parameters if they are an object or array |
| `ToolManifest.AliasTable` | gateway/services/agent-protocol.js:22-35 | What each alias stands for; every other name stands for itself |
| `ToolManifest.InheritedShows` | gateway/services/agent-protocol.js:55-58 | What an inherited member becomes as a text |
| `ToolManifest.UsableIff` | gateway/services/agent-protocol.js:77-78 | A name is usable if and only if it is neither empty nor "final" nor an alias of it |
| `ToolManifest.NormalizeTwiceIff` | gateway/services/agent-protocol.js:55-87 | Normalizing the stored list again changes nothing if and only if no declared name is that of a member every object inherits |
| `ProgressPolicy.ResolvedIsOrdered` | gateway/services/agent-progress.js:33-55 | However warning and cancellation are configured, rounding leaves the cancellation strictly after the warning |
| `ProgressPolicy.WarningFollows` | gateway/services/agent-progress.js:33-38 | The warning follows its override, else the configured minutes, else ten minutes |
| `ProgressPolicy.CancelFollows` | gateway/services/agent-progress.js:39-47 | The cancellation is its override, else its minutes, else an hour, and if that does not leave the warning a millisecond, comes one after it |
| `ProgressPolicy.LimitsFollow` | gateway/services/agent-progress.js:48-55 | Turn limit and verification time follow override, configuration and default |
| `ProgressPolicy.RoundIsNearest` | gateway/services/agent-progress.js:21-55 | Rounding goes to the nearest integer, halves up |
| `Supervisor.OnTimeAlways` | gateway/services/agent-progress.js:96-215 | In every reachable state a running slice has its cancellation pending at last progress plus the limit and its warning pending or given on time; a cancelled one has reported exactly one cancellation |
| `Supervisor.QuietDeadline` | gateway/services/agent-progress.js:141-160 | The cancellation deadline is cancelMs after the last accepted progress, and no running slice is past it |
| `Supervisor.WarnedBeforeCancel` | gateway/services/agent-progress.js:141-160 | A cancellation for lack of progress happens exactly at its deadline, and that quiet window was warned of before |
| `Supervisor.CancelledForGood` | gateway/services/agent-progress.js:133-140 | onCancel fires at most once and "cancelling" is never left |
| `Supervisor.TurnIsBounded` | gateway/services/agent-progress.js:161-182 | A started API turn keeps its deadline whatever progress is marked, and no running slice outlives it |
| `Supervisor.TurnDeadlineSet` | gateway/services/agent-progress.js:161-182 | Starting a turn sets its deadline turnMaxMs ahead, with a warning no later than it |
| `Supervisor.TurnWarningIsTrueIff` | gateway/services/agent-progress.js:161-182 | The remaining time a turn warning announces is the time left to the deadline if and only if the turn limit was not rounded to zero |
| `Supervisor.TurnLimitIsZeroIff` | gateway/services/agent-progress.js:33-55 | A resolved turn limit is zero if and only if the configured one is under half a millisecond |
| `Supervisor.ZeroLimitIsMisannounced` | gateway/services/agent-progress.js:161-182 | With a limit of 0.3 milliseconds a turn is over when it starts, and one millisecond is announced to remain |
| `Supervisor.WarnedBeforeTimeout` | gateway/services/agent-progress.js:161-182 | A turn is cancelled for its limit exactly at its deadline, and with a limit of at least a millisecond it was warned of before |
| `Supervisor.InitialOnTime` | gateway/services/agent-progress.js:96-185 | A new supervisor with a resolved policy satisfies everything the run theorems start from |
| `Supervisor.DueTimersFire` | gateway/services/agent-progress.js:133-182 | A due timer of a running slice does its work: warnings warn, cancellations cancel with their own code |
| `Supervisor.EarlyTimersRest` | gateway/services/agent-progress.js:141-182 | A timer that is not due does nothing |
| `Supervisor.TimePassesIff` | gateway/services/agent-progress.js:96-104 | Time reaches a later moment if and only if no pending deadline lies before it |
| `Supervisor.ProgressIs` | gateway/services/agent-progress.js:189-203 | Accepted progress opens a new quiet window from now, is announced, and leaves the turn alone |
| `Supervisor.RefusedMarkRests` | gateway/services/agent-progress.js:189-193 | A mark that is not accepted changes nothing |
| `Supervisor.AcceptedIff` | gateway/services/agent-progress.js:190-197 | Progress is accepted if and only if the slice runs and it repeats none of the last 128 accepted fingerprints |
| `Supervisor.StateTellsAlways` | gateway/services/agent-progress.js:144-201 | A running slice is in the warning state if and only if its quiet window or its turn has been warned of |
| `Supervisor.DisposeClears` | gateway/services/agent-progress.js:207-212 | Disposal leaves no timer pending |
| `Supervisor.DisposedIsSilent` | gateway/services/agent-progress.js:207-212 | A disposed slice never reports, cancels or accepts anything |
| `Supervisor.TurnStartsOnce` | gateway/services/agent-progress.js:161-163 | A second start of a turn changes nothing |
| `Supervisor.LeadIs` | gateway/services/agent-progress.js:164-164 | The turn warning leads its deadline by a tenth of the limit, at least a millisecond and at most ten minutes |
| `Supervisor.RemembersLast` | gateway/services/agent-progress.js:190-197 | The remembered fingerprints are exactly the last 128 accepted ones, all different |
| `Supervisor.ExecutionSupervisor.constructor` | gateway/services/agent-progress.js:96-185 | A new supervisor has armed its timers and reported once |
| `Supervisor.ExecutionSupervisor.MarkMeaningfulProgress` | gateway/services/agent-progress.js:189-203 | Takes exactly the progress step and reports whether it was accepted |
| `Supervisor.ExecutionSupervisor.RememberPrint` | gateway/services/agent-progress.js:193-197 | Set and queue forget the oldest fingerprint together |
| `Supervisor.ExecutionSupervisor.CancelWith` | gateway/services/agent-progress.js:133-140 | Cancels once, and not after disposal |
| `Supervisor.ExecutionSupervisor.StartApiActiveTurn` | gateway/services/agent-progress.js:161-182 | Arms the turn timers once |
| `Supervisor.ExecutionSupervisor.OnQuiet` | gateway/services/agent-progress.js:144-152 | The warning callback does nothing once cancelled or disposed |
| `Supervisor.ExecutionSupervisor.OnTurnWarning` | gateway/services/agent-progress.js:165-175 | The turn warning makes the warning state survive later progress |
| `Supervisor.ExecutionSupervisor.DisposeTimers` | gateway/services/agent-progress.js:207-212 | Disposal clears all four timers |
| `PlannerStop.ReachableAlways` | gateway/routes/chat.js:310-402 | In every interleaving a scheduler that is executing is registered or already aborted, and only executing ones are registered |
| `PlannerStop.StopAbortsIff` | gateway/routes/tasks.js:129-163 | A stop leaves the executing scheduler aborted if and only if the task row still exists or it was aborted before |
| `PlannerStop.StopHaltsIff` | gateway/routes/tasks.js:129-163 | A stop leaves the task finished or gone if and only if it was gone, had one of the four known statuses, or was marked along with its processes |
| `PlannerStop.StopSilencesIff` | gateway/routes/chat.js:310-402 | A stop silences a closure for good, in every continuation and wherever it is suspended, if and only if it can stop the task or the closure has no write before it any more |
| `PlannerStop.StaysStopped` | gateway/routes/chat.js:310-402 | It stays so through any steps of its closure and of other handlers, until somebody else sets it going |
| `PlannerStop.NoRevival` | gateway/routes/chat.js:310-402 | After a stop that can stop the task its planning closure never writes running or completed, at whichever await it was suspended |
| `PlannerStop.ClosureWritesAreAll` | gateway/routes/chat.js:310-402 | The writes accounted for are all that the closure does to the task table |
| `PlannerStop.Server.AfterPlanning` | gateway/routes/chat.js:313-353 | Check, registration and write share one turn; the resulting state is that of the step |
| `PlannerStop.Server.AfterExecution` | gateway/routes/chat.js:354-364 | Unregisters, then gives up if stopped meanwhile |
| `PlannerStop.Server.AfterSummary` | gateway/routes/chat.js:365-374 | Writes completed only if not stopped meanwhile |
| `PlannerStop.Server.AfterFailure` | gateway/routes/chat.js:392-401 | Unregisters, then falls back to a single run unless stopped |
| `PlannerStop.Server.StopTask` | gateway/routes/tasks.js:129-163 | Aborts, unregisters, fails the task as it stood on entry, and then those unfinished subtasks that stand on the first page of the listing |
| `PlannerStop.SubtaskLeftIff` | gateway/db/sqlite.js:642-668 | A stop leaves a subtask unfinished if and only if it was unfinished, was not marked along with its process, and stands past the fiftieth place of the listing |
| `PlannerStop.StopFailsSubtasks` | gateway/routes/tasks.js:153-160 | With at most fifty subtasks a stop leaves none unfinished |
| `PlannerStop.StopKeepsStatus` | gateway/routes/tasks.js:129-163 | A task that is neither running nor pending keeps its status, completed ones included, unless its process was killed |
| `PlannerStop.StopOnlyFails` | gateway/routes/tasks.js:129-163 | A stop changes a task at most to failed, and only the stopped one and its subtasks |
| `PlannerStop.StopSparesOthers` | gateway/routes/tasks.js:135-141 | A stop moves no closure and aborts and unregisters only the scheduler of its own task |
| `PlannerStop.UnstoppedCompletes` | gateway/routes/chat.js:313-379 | A task that nobody stops goes from its plan through scheduler and summary to completed, registered exactly while its scheduler executes |
| `PlannerStop.SingleRuns` | gateway/routes/chat.js:380-391 | A plan without a split runs the task by itself and writes nothing |
| `PlannerStop.FailureFallsBack` | gateway/routes/chat.js:392-401 | A failure at any await unregisters the scheduler and runs the task by itself unless it was stopped |
| `PlannerStop.StoppedEnds` | gateway/routes/chat.js:316-370 | Wherever the closure finds its task stopped, it ends and leaves it alone |
| `PlannerStop.OthersWrite` | gateway/routes/tasks.js:165-180 | Subtasks are created once, pending; the update and delete routes touch only the task they name |
| `PlannerStop.LaunchWaits` | gateway/routes/chat.js:305-314 | A launched task is pending and waits for its plan |
| `MaskedConfig.MaskRoundTripIff` | gateway/routes/config.js:115-119 | Merging the untouched mask back restores a tree if and only if secrets under objects are truthy or empty strings and arrays hide no secret; a field named `__proto__` is never masked and stays |
| `MaskedConfig.MaskIsIdentityIff` | gateway/routes/config.js:115-119 | Masking changes nothing exactly when every secret already reads as its mask |
| `MaskedConfig.MaskHides` | gateway/routes/config.js:115-119 | Whatever stands in a mask under a secret key, at any depth and below arrays too, is the mark or the empty text |
| `MaskedConfig.MaskTellsNothing` | gateway/routes/config.js:115-119 | Trees that differ only in what their secrets are have the same mask |
| `MaskedConfig.MaskShows` | gateway/routes/config.js:116-118 | Everything else is shown: plain values as they are, arrays in length and objects with their keys |
| `MaskedConfig.TruthyIff` | gateway/routes/config.js:117-117 | A secret shows as the mark unless it is nothing, false, zero, not a number or the empty text |
| `MaskedConfig.SensitiveIff` | gateway/routes/config.js:115-115 | A key is secret if and only if it contains token, key, secret or cookie in any letter case |
| `MaskedConfig.IsMaskedIff` | gateway/routes/config.js:202-202 | A value reads as masked if and only if it is a text with three stars in a row |
| `MaskedConfig.EditedMaskMerges` | gateway/routes/config.js:202-214 | Replacing one leaf or array of the mask along an object path and merging changes exactly that place of the tree |
| `MaskedConfig.UntouchedStays` | gateway/routes/config.js:205-214 | Whatever path an edit does not mention, or shows masked on the way or in place, keeps its value |
| `MaskedConfig.ShownIsSet` | gateway/routes/config.js:205-214 | Whatever leaf or array an edit shows unmasked stands at its path afterwards, whatever stood there before |
| `MaskedConfig.MergeIsIdempotent` | gateway/routes/config.js:205-214 | Saving the same edit twice gives the same tree as saving it once |

## Left out

- `AgentRuns.AtMost200Calls`: sessions restored from disk and process restarts (hydration, persistence) are not part of the runs; neither are chunks that a brain streams before it first yields.
- `GitRuns.PhaseIsLastJournaled`: speaks of runs that journal only for operations that exist, which the source does not enforce; `GitRuns.PhaseIsLastJournaledIff` is the statement over every run.
- `GitRuns.SettledForever`: the unguarded `updateGitControllerOperation` and `finishGitControllerOperation` (gateway/db/sqlite.js:5266-5323) are not in the run alphabet; they rewrite any status.
- `SyncMerge.Converges`: covers kind and stamp only; descriptive fields that an upsert coalesces, and `source_in_scope`, are not modelled, and the source does not make them converge.
- `SyncMerge.Store.MergeRow`: is one atomic step; the upsert and the removal of the tombstone are two statements in the source, and other processes between them are not modelled.
- `WorktreeLeases.Store.SettleInactiveTask`: models the worktree rows only; the task, agent and runtime-lease rows that the same transaction updates, and its returned counts, belong to tables outside the model.
- `WorktreeLeases.Store.ClaimLease`: does not say which conflicting row is reported, nor the order of the reported keys.
- `Supervisor.QuietDeadline`: the clock stops at a pending deadline until its callback has run; delays of a busy event loop, timer durations beyond what setTimeout accepts and floating-point rounding are not modelled.
- `JsonText.TextIsInjective`: numbers are their printed numerals; NaN, infinities, negative zero and lone surrogates in strings are not modelled.
- `PlannerStop.NoRevival`: runTask, the scheduler's inside, planTask and the summary are awaits with arbitrary results; the route that updates a task is an outside writer of any status. The order of the subtask listing among equal priorities and times is whatever the listing gives.
- `ToolManifest.NormalizeToolManifest`: names and descriptions are texts from the start; String() of other values is not modelled.
- `MaskedConfig.MaskRoundTripIff`: inherited members that an edited tree names (`constructor`, or what a `__proto__` field brings in) are read as absent; only the loss of a `__proto__` field is modelled.
- SQL text, schema, retries, row mappers and the metadata columns of the tables (host names, process identity, error and data payloads of the journal).
- JSON.parse and JSON.stringify of backup data, and the insides of gzip and sha256: an injective hash and an inverse pair stand for them.
- localeCompare and SQLite's text collation: a place for every key or id stands for them.
- Event payloads, prompts, workspace texts, telemetry snapshots, the list of interrupts, and artifact fields other than size and time.
- The default creation time of artifacts without one, and updateAgentArtifact, which may overwrite any field of an artifact.
- Request signatures, authentication, capability listings and the other routes.
- Recoverable-operation listing, audit rows, repository registration: plain queries and inserts.
- `normalizeApiMaxToolIterations`, the snapshot handed to the supervisor's callbacks, and how a progress fingerprint is built from its event.
