# Moistello backend: verified models

This project models the parts of the Moistello backend whose correctness is a property of whole
runs, and proves those properties in Dafny. `dafny verify dfyconfig.toml` checks everything.

Classes follow the program's own mutable objects (ledger history, cursor row, indexer engine, circle
tables, circuit breaker, Redis lock, migration table, hub, limiters, job queue). Each of their
methods is proved equal to a step function on values; the theorems are about sequences of such steps.
Databases are values, a transaction or a locked section is one step, and every outside call that can
fail is a flag chosen by the environment.

| file | component |
|---|---|
| `Ledgers.dfy`, `LedgerHistory.dfy`, `Reorg.dfy` | hash-chained ledgers, the bounded hash history, fork detection |
| `Engine.dfy`, `Delivery.dfy` | the poll cycle with rollback and replay; exactly which rows a poll stores |
| `Guards.dfy`, `Swaps.dfy`, `Repairs.dfy` | exactly when the reorg check repairs every branch swap |
| `Runs.dfy`, `Safety.dfy`, `Splits.dfy`, `Coverage.dfy` | whole runs of engine and reconciler over changing branches, with polls as one step and split |
| `Gaps.dfy`, `Switches.dfy` | what uncovers stored rows: rollbacks, lost checkpoints, the reconciler, a chain switch inside a poll |
| `Cursors.dfy`, `Reconciler.dfy` | the cursor row, batched catch-up, several writers on one row |
| `Circles.dfy` | contribution and payout transactions of savings circles |
| `Breaker.dfy`, `LeaseLock.dfy` | the circuit breaker with calls in flight, the token-owned lease lock |
| `Money.dfy`, `MoneyText.dfy` | 64-bit fixed-point arithmetic, decimal parser and printer |
| `MigrationNames.dfy`, `Migrate.dfy` | file order, target resolution, selection, whole migration runs |
| `Hub.dfy`, `Limiters.dfy`, `JobQueue.dfy` | websocket hub, rate limiters, job queue and worker |

## Findings

Places where a stated promise does not hold for all inputs. The model follows the code; each has the
condition under which the promise does hold.

- Reorg repair. The comment at internal/indexer/reorg.go:18-26 promises that inside the window the
  indexer converges and that a deeper fork is reported, never half-repaired. For every state whose
  recorded hashes stem from one chain, the check repairs every swap to a chain that reaches the window
  if and only if the rows stem from that chain and the state is *guarded*: no row above the cursor, the
  ledger of every row inside the window recorded, and the first ledger of the window recorded if some
  row lies below it (`Repairs.RepairIsCorrectIffGuarded`; over whole runs
  `Gaps.NextSwapIsRepairedIffGuarded`). Three things break the guard:
  - A rollback truncates the history and moves the window down. The state stays guarded if and only if the
    rows left below the old window are guarded by the new one (`Gaps.RollbackGuardsIff`); with nothing
    recorded below the old window, if and only if no row is left below the oldest record
    (`Gaps.RollbackGuardsIffNoneBelow`). Otherwise a second, deeper reorganization before the replay has
    caught up is repaired to the wrong ledger without an error.
  - A lost checkpoint. When the cursor update at the end of a poll fails, every row that the poll stored
    is above the cursor and outside the next check (`Gaps.LostCheckpointExposes`,
    `Repairs.ExposedRowIsMissed`). The exposure ends with the next poll of the chain that is silent in its
    check, visits at least as far and keeps its checkpoint (`Gaps.ExposureEnds`).
  - The reconciler, which `Engine.Start` always runs on the same cursor row, may move the cursor and
    records no hash (internal/indexer/reconciler.go:194, 222). A ledger it visits, above the cursor or
    behind it, keeps the guard if and only if a new row is guarded where it is stored, and the first ledger
    of the moved window is recorded where an old row lies below it (`Gaps.VisitGuardsIff`). A row stored
    above the cursor never is, and some branch swap then goes unnoticed (`Gaps.ReconcilerHidesFork`). A
    cycle of at least a window of ledgers outruns all recorded hashes: rows of a branch that was abandoned
    before stay while the new chain grows (`Gaps.CycleOutrunsCheck`).
- Short chain. If the new chain ends below the window, the check reads nothing and is silent
  (`Repairs.ShortChainIsNotChecked`). For chains of any length every swap is repaired if and only if,
  besides the above, no row lies below the window (`Repairs.RepairOfAnyLengthIsCorrectIff`).
- Transactions on both branches. The deduplicator is not rolled back. An event has a row after a poll if
  and only if the rollback left its row, or the deduplicator does not know the transaction and its first
  occurrence on the page stores it (`Delivery.EventIsStoredIff`); so a row removed by a rollback is not
  stored again although the replayed page holds it (`Delivery.RepairLosesRow`). Once the reconciler's
  deduplicator knows the transaction too, the row stays lost until one of them forgets
  (`Runs.LostUntilForgotten`).
- Chain switch inside a poll. When the chain changes between the check and the fetch, the next check
  repairs every chain in reach if and only if the state is guarded after the poll and, where the page is a
  window long or more, no row of before is abandoned by the chain it was fetched from
  (`Switches.SwitchIsRepairedIff`; from a covered window only the page counts,
  `Switches.CoveredSwitchIsRepairedIff`). What a long page hides stays hidden while the new chain only
  grows (`Switches.LongPageHidesSwitch`).
- Rewind during a cycle. The ledgers that a rewind wants replayed are all visited again before the row
  passes them if and only if no other process is under way above the ledger that is rewound to
  (`Reconciler.RewindIsHonouredIff`); otherwise that process drags the row past them and nothing is stored
  for them (`Gaps.RewindIsOverrun`).
- Circuit breaker. It can stay half open for ever, refusing every call, if and only if
  SuccessThreshold exceeds HalfOpenMaxReqs + 1 (`Breaker.WedgesIffThresholdTooHigh`).
- `down --to`. The early exit of the scan is sound if and only if positions are in order along the
  down files; a down file without an up file breaks it (`Migrate.EarlyExitIsSoundIffInOrder`,
  `Migrate.UnpairedDownFileHidesOthers`).
- Legacy migration rows. A bare-number row covers all migrations of its prefix, and reverting one of them
  deletes it: another one still counts as applied if and only if it has a row of its own
  (`Migrate.RevertForgetsSiblings`).
- Empty rooms. A room without members appears if and only if an unknown client joins a new room while no
  authorizer is configured (`Hub.EmptyRoomIff`).
- Job back-off. The delay is 2^retries seconds if and only if retries is at most 33; the next one wraps to
  a negative duration (`JobQueue.BackoffIsExactIff`, `JobQueue.BackoffTurnsNegative`).

## Assumptions

- Horizon serves consecutive ledgers from ledger 1, in ascending order, with non-empty hashes that do
  not collide. In the run theorems a poll, and each ledger of a reconciler cycle, sees one chain; between
  any two of these steps the chain may be replaced by any branch, and the steps of engine and reconciler
  interleave freely. In `Splits.dfy` the cursor read, the check and the replay of a poll are separate
  steps. A chain that changes between the check and the replay is treated in `Switches.dfy`.
- Job ids, connection ids and lock tokens are fresh when minted. Clocks do not run backwards. The hub
  needs the fresh ids: unregistering keeps its maps in agreement if and only if the id is not registered
  for another user (`Hub.UnregisterAgreesIffKnown`).
- Migration file names are ASCII stems without dots or slashes in one directory, and every down file
  has an up file where a theorem says so.

## Model

| member | source | states |
|---|---|---|
| `Ledgers.FetchedPage` | internal/indexer/poller.go:86-126 | a page is exactly the consecutive ledgers after the cursor, as far as the chain and the limit go |
| `Ledgers.MeetingBranchesShareThePast` | internal/indexer/poller.go:27-37 | two hash-chained branches that meet at a ledger are equal at every ledger below it |
| `LedgerHistory.History.constructor` | internal/indexer/ledger_history.go:30-39 | a new history is empty; a window that is not positive becomes the default of 10 |
| `LedgerHistory.InsertSorted` | internal/indexer/ledger_history.go:52-55 | inserting a new sequence keeps the list ascending and adds exactly that element |
| `LedgerHistory.History.Record` | internal/indexer/ledger_history.go:44-63 | the hash is recorded and the least ledger forgotten when the window overflows; an empty hash changes nothing; list and map stay in step |
| `LedgerHistory.RecordedHashes` | internal/indexer/ledger_history.go:44-63 | no recorded hash is empty, and other ledgers keep theirs |
| `LedgerHistory.History.Hash` | internal/indexer/ledger_history.go:67-72 | returns the recorded hash, and whether there is one |
| `LedgerHistory.History.Truncate` | internal/indexer/ledger_history.go:76-89 | keeps exactly the records below the given ledger |
| `Reorg.LeastMismatchIsFirst` | internal/indexer/reorg.go:74-87 | the scan ends with the least recorded ledger whose hash differs, and with none if there is none |
| `Reorg.DetectReorg` | internal/indexer/reorg.go:52-104 | the loop computes the verdict that the exactness theorems are about, for every window, chain and history |
| `Reorg.DetectionIsExact` | internal/indexer/reorg.go:48-104 | on a covered window a plan names the least ledger where the indexed branch and the chain differ, also below the window; silence exactly when they agree; too deep exactly when they differ at the first ledger read |
| `Cursors.Advanced` | internal/indexer/cursor.go:70-78 | the guarded update never lowers the row and never creates one |
| `Cursors.CursorTracker.GetCurrent` | internal/indexer/cursor.go:37-44 | reads the row; a missing row or a database error yields none |
| `Cursors.CursorTracker.Rewind` | internal/indexer/cursor.go:48-56 | moves an existing row to any ledger, backwards too |
| `Cursors.CursorTracker.Update` | internal/indexer/cursor.go:66-91 | advances only; negative ledgers, database errors and a missing row are told apart and change nothing |
| `Engine.IndexerEngine.CheckForReorg` | internal/indexer/engine.go:161-197 | equals the rollback step, including the partial effect of a delete followed by a failed rewind |
| `Engine.EventTable.StoreEvents` | internal/indexer/processor.go:281-293 | one row per event; a conflict on the unique index leaves the table alone, whatever the order |
| `Engine.EventTable.Process` | internal/indexer/engine.go:276-294 | delivers each transaction that the deduplicator does not know, in order, and keeps the rows of the events that could be written |
| `Engine.IndexerEngine.VisitLedger` | internal/indexer/engine.go:263-295 | records the hash first, then delivers; transactions that cannot be fetched leave the ledger recorded and skipped |
| `Engine.IndexerEngine.VisitPage` | internal/indexer/engine.go:262-304 | records, delivers and checkpoints a page; ledgers whose transactions cannot be fetched are recorded and skipped |
| `Engine.IndexerEngine.PollOnce` | internal/indexer/engine.go:237-309 | one poll equals the step function of the run theorems, on every failure path |
| `Engine.CheckRepairs` | internal/indexer/engine.go:161-197 | a completed check on a covered window leaves exactly the part of the indexed branch that the chain shares |
| `Engine.RollbackIsComplete` | internal/indexer/engine.go:174-196 | after one rollback no row is at or above the fork and none below is lost, the cursor is fork-1, the history holds canonical hashes only |
| `Engine.FailedRollbackIsRetried` | internal/indexer/engine.go:174-180 | after a failed delete nothing is lost, after a failed rewind exactly the rows from the fork on; the next check finds the same fork and its rollback ends where the first would have |
| `Engine.PollIndexesOneBranch` | internal/indexer/engine.go:237-309 | each poll leaves the state with one hash-chained indexed branch, agreeing with the chain when the poll completes |
| `Delivery.FirstOnIsFirst` | internal/indexer/engine.go:276-285 | the first occurrence of a transaction on a page is preceded by no other |
| `Delivery.DeliverIsExact` | internal/indexer/engine.go:276-294 | one ledger adds exactly the rows of the first occurrences of unknown transactions where the unique index is free |
| `Delivery.PollDeliversExactly` | internal/indexer/engine.go:262-295 | a poll stores exactly that over its whole page, on top of what its rollback left |
| `Delivery.EventIsStoredIff` | internal/indexer/engine.go:282-294 | an event has a row after a poll if and only if its row survived the rollback or its transaction was unknown and its first occurrence stores it |
| `Delivery.RepairLosesRow` | internal/indexer/engine.go:282-285 | a rolled back row of a known transaction is not stored again, though it would be had the deduplicator forgotten |
| `Guards.Compared` | internal/indexer/reorg.go:74-95 | a completed check has compared every recorded ledger of the window below the fork |
| `Guards.RemainingRowsAgree` | internal/indexer/engine.go:151-160 | from a guarded state of one chain, what a completed check of any other chain leaves is that chain's |
| `Repairs.ShortChainIsNotChecked` | internal/indexer/reorg.go:62-68 | a chain that ends below the window is never compared |
| `Repairs.ExposedRowIsMissed` | internal/indexer/reorg.go:70-95 | for every unguarded row some branch in reach passes the check and leaves that row abandoned |
| `Repairs.RepairIsCorrectIffGuarded` | internal/indexer/reorg.go:18-26 | the check repairs every swap in reach if and only if the state is guarded and its rows stem from the recorded chain |
| `Repairs.RepairOfAnyLengthIsCorrectIff` | internal/indexer/reorg.go:18-26 | for chains of any length: if and only if, besides, no row lies below the window |
| `Runs.SettledStaysSettled` | internal/indexer/engine.go:166-172 | once the recorded hashes are canonical and while the chain only grows, every later check in every run finds nothing, whatever fails and whatever the reconciler does |
| `Runs.OneRepairSuffices` | internal/indexer/engine.go:161-197 | from any state with a fork inside a covered window, after the one poll that meets it no later check of the growing chain finds anything |
| `Runs.OneRowPerEvent` | internal/indexer/processor.go:1099-1105 | across all polls, rollbacks, replays and cycles, with both deduplicators forgetting, an event of a transaction has at most one row |
| `Runs.LostUntilForgotten` | internal/indexer/engine.go:282-285 | an event without a row whose transaction both deduplicators know gets none in any run until one of them forgets |
| `Safety.PollKeepsInv` | internal/indexer/engine.go:237-309 | a poll from a guarded state, or on a chain that only grew, leaves rows and vouching hashes of one chain, which is the poll's chain when it completes |
| `Safety.CatchUpKeepsInv` | internal/indexer/reconciler.go:188-225 | so does a visited ledger of the reconciler, above the cursor or behind it, that stores nothing, or that lies on a chain that only grew and whose hashes are recorded beyond it |
| `Safety.NoAbandonedEvents` | internal/indexer/engine.go:94-160 | over whole runs of engine and reconciler with branches swapped between their steps, no row stems from a ledger that the known chain abandoned |
| `Coverage.RecordKeepsNewest` | internal/indexer/ledger_history.go:44-63 | recording the next ledger keeps every hash of the newest window, with gaps or without |
| `Coverage.PollHolds` | internal/indexer/engine.go:237-309 | every poll that keeps its checkpoint holds all ledgers since the reconciler's last one, a window deep behind the high-water mark |
| `Coverage.CaughtUpIsGuarded` | internal/indexer/reorg.go:57-60 | at the high-water mark, with the last window of ledgers visited by the engine itself, the state is guarded |
| `Coverage.CalmRunsKeepNoAbandonedEvents` | internal/indexer/engine.go:94-160 | the safety theorem with no assumption on the history: branches are swapped only while the engine has caught up and visited the last window itself, and the reconciler stores rows only on a growing chain |
| `Gaps.RollbackGuardsIff` | internal/indexer/engine.go:182-184 | a rollback leaves the state guarded if and only if the rows below the old window are guarded by the new one |
| `Gaps.RollbackGuardsIffNoneBelow` | internal/indexer/engine.go:182-184 | with nothing recorded below the old window: if and only if no row is left below the oldest record |
| `Gaps.LostCheckpointExposes` | internal/indexer/engine.go:297-301 | right after a lost checkpoint every row that the poll stored is exposed |
| `Gaps.ExposureEnds` | internal/indexer/engine.go:297-301 | the next poll that is silent in its check, visits as far and keeps its checkpoint guards those rows again |
| `Gaps.VisitGuardsIff` | internal/indexer/reconciler.go:188-225 | a ledger visited by the reconciler, wherever it stands, keeps the guard if and only if a new row is guarded where it is stored and the moved window's first ledger is recorded where needed |
| `Gaps.RecordedVisitKeepsGuard` | internal/indexer/reconciler.go:188-225 | visiting again a ledger that is recorded inside the window keeps the guard, whatever it stores |
| `Gaps.ReconcilerHidesFork` | internal/indexer/reconciler.go:194-222 | every row that the reconciler stores above the cursor can be abandoned unnoticed |
| `Gaps.OutOfSightForGood` | internal/indexer/reorg.go:57-60 | hashes that have left the window are never compared again while the chain grows, and nothing stored is removed |
| `Gaps.CycleOutrunsCheck` | internal/indexer/reconciler.go:166-230 | after a cycle of a window or more no row of before is ever removed while the chain grows |
| `Gaps.RewindIsOverrun` | internal/indexer/reconciler.go:164-222 | a cycle that is under way when the cursor is rewound drags the row past the ledgers in between and stores nothing for them |
| `Gaps.NextSwapIsRepairedIffGuarded` | internal/indexer/engine.go:94-160 | at the end of any run over a growing chain, with any failures and cycles, every swap in reach is repaired if and only if the indexer is guarded |
| `Switches.ReplayedPage` | internal/indexer/engine.go:252-304 | a completed replay has visited a page of at most the batch size, and the cursor stands at its end |
| `Switches.SwitchIsRepairedIff` | internal/indexer/engine.go:244-260 | after a page of another chain, rollback before or not, every next chain in reach is repaired if and only if the state is guarded and a page of a window or more abandons no row |
| `Switches.CoveredSwitchIsRepairedIff` | internal/indexer/engine.go:244-260 | from a covered window: if and only if the page is shorter than the window or its chain abandons no row |
| `Switches.LongPageHidesSwitch` | internal/indexer/engine.go:244-260 | a row left abandoned by a page of a window or more stays so in every run while the new chain only grows |
| `Splits.PollIsThreeMoves` | internal/indexer/engine.go:237-309 | the cursor read, the check and the replay, made one after the other, are the poll |
| `Splits.RunsAreMoves` | internal/indexer/engine.go:94-117 | every run with whole polls is a run of the split steps |
| `Splits.CheckAtIsSafe` | internal/indexer/engine.go:238-250 | a check at a cursor that the row may have left behind leaves rows of the checked chain only, if the state was guarded at that cursor or the chain only grew |
| `Splits.SplitRunsKeepNoAbandonedEvents` | internal/indexer/engine.go:94-309 | the safety theorem with visits of the reconciler between the cursor read, the check and the replay of a poll |
| `Runs.CycleIsUndisturbed` | internal/indexer/reconciler.go:164-230 | whatever other writers do to the row, rewinds included, the visits of a cycle are the consecutive ledgers after its starting cursor |
| `Runs.FailedVisitEndsCycle` | internal/indexer/reconciler.go:222-224 | a visit whose checkpoint fails ends the cycle and leaves the row alone |
| `Reconciler.LedgerReconciler.VisitBatch` | internal/indexer/reconciler.go:188-225 | delivers and checkpoints a page in order wherever the row stands; stops after the first failed checkpoint |
| `Reconciler.LedgerReconciler.Reconcile` | internal/indexer/reconciler.go:121-244 | for any batch size the cycle terminates and visits, in order, exactly the first min(limit, available) ledgers; a failed cycle visited a prefix of them and at most its last ledger is not in the row |
| `Reconciler.CursorNeverSkipsALedger` | internal/indexer/cursor.go:62-91 | for any number of engines and reconcilers in any interleaving, with rewinds that find nobody above them, every ledger up to the cursor was visited and only a rewind lowers the cursor |
| `Reconciler.ProcessGetsOn` | internal/indexer/cursor.go:66-91 | an idle process, engine or reconciler, that is left alone visits its n ledgers and moves the row past them |
| `Reconciler.RewindIsHonouredIff` | internal/indexer/engine.go:174-196 | from every reachable state a rewind is honoured, in all later runs, if and only if no other process is under way above its ledger |
| `Circles.TotalsAreConserved` | internal/indexer/circle_tx.go:38-42 | in every run, a circle that is not deleted has grown by exactly its recorded contributions |
| `Circles.RoundMovesForCause` | internal/indexer/circle_tx.go:133-141 | a step never lowers the round and raises it only on a newly funded round or a payout |
| `Circles.RoundsAreJustified` | internal/indexer/circle_tx.go:122-186 | in every run the current round is the initial one or was reached by a justified step |
| `Circles.ContributionIsRecordedIff` | internal/indexer/circle_tx.go:102-105 | a contribution is recorded if and only if its circle exists and neither its transaction nor its circle, user and round are on record |
| `Circles.PayoutIsRecordedIff` | internal/indexer/circle_tx.go:171-173 | a payout is recorded if and only if its circle exists and its transaction is not on record |
| `Circles.NobodyCountsTwice` | internal/indexer/circle_tx.go:102-105 | in every run no member has two contributions in a round |
| `Circles.LastMemberCompletes` | internal/indexer/circle_tx.go:130-137 | the contribution of the last missing member advances the round, and without it the round was not funded |
| `Circles.DeletedIsFrozen` | internal/indexer/circle_tx.go:33-46 | no run changes the counters of a deleted circle |
| `Circles.MembersMove` | internal/indexer/circle_tx.go:124-134 | who counts as an active member changes by joining and leaving only, circle by circle |
| `Circles.EventsAreRecordedOnce` | internal/indexer/circle_tx.go:102-105 | replays and order do not change which rows are stored: exactly the distinct insertable events |
| `Circles.EventsDecideTheRound` | internal/indexer/circle_tx.go:33-46 | with fixed members the round is the greatest that the stored rows call for |
| `Circles.OrderDoesNotMatter` | internal/indexer/circle_tx.go:81-186 | any two orders of the same distinct events, with any replays, end in the same database |
| `Circles.CircleStore.ApplyContribution` | internal/indexer/circle_tx.go:81-146 | all or nothing under a failure at any point; a conflict changes nothing; reports an advance exactly when the round is fully funded |
| `Circles.CircleStore.RecordPayoutAndAdvance` | internal/indexer/circle_tx.go:151-186 | all or nothing; a replayed payout is a conflict that changes nothing, told apart from an unknown circle |
| `Breaker.CircuitBreaker.constructor` | pkg/stellar/circuitbreaker.go:62-68 | a new breaker is closed with all counters at zero |
| `Breaker.CircuitBreaker.TransitionTo` | pkg/stellar/circuitbreaker.go:148-158 | the transition step, with the counters it resets |
| `Breaker.CircuitBreaker.BeforeRequest` | pkg/stellar/circuitbreaker.go:92-114 | the step before a call and whether the call is admitted |
| `Breaker.CircuitBreaker.AfterRequest` | pkg/stellar/circuitbreaker.go:116-146 | the step after a call |
| `Breaker.CircuitBreaker.ResetBreaker` | pkg/stellar/circuitbreaker.go:182-190 | forces the breaker closed and leaves the time of its last transition |
| `Breaker.HalfOpenInvHolds` | pkg/stellar/circuitbreaker.go:105-142 | in every half-open state requests+1 <= successes + calls in flight, even with late completions |
| `Breaker.WedgesIffThresholdTooHigh` | pkg/stellar/circuitbreaker.go:92-158 | some run with a clock that never runs backwards leaves the breaker half open, idle and refusing for ever if and only if SuccessThreshold > HalfOpenMaxReqs+1 |
| `Breaker.WedgedForever` | pkg/stellar/circuitbreaker.go:105-108 | once wedged only a reset changes anything |
| `Breaker.EpisodeIsBounded` | pkg/stellar/circuitbreaker.go:99-110 | each half-open episode admits at most HalfOpenMaxReqs+1 calls |
| `Breaker.FailuresAreConsecutive` | pkg/stellar/circuitbreaker.go:125-133 | while closed the counter is the failing suffix of the outcomes since closing, and below the threshold |
| `Breaker.OpensForCause` | pkg/stellar/circuitbreaker.go:127-130 | a closed breaker opens only on the last of at least FailureThreshold failures in a row |
| `Breaker.OpenFailsFast` | pkg/stellar/circuitbreaker.go:99-104 | an open breaker admits nothing until more than OpenTimeout has passed, whatever returns meanwhile |
| `Breaker.ShutForTheTimeout` | pkg/stellar/circuitbreaker.go:97-104 | by events and times only: from the event that opened it the breaker admits a call if and only if more than OpenTimeout has passed since that event, and is half open with that call |
| `Breaker.FailedProbeReopens` | pkg/stellar/circuitbreaker.go:134-136 | a call that fails while half open opens the breaker again |
| `Breaker.ClosesIffEnoughSuccesses` | pkg/stellar/circuitbreaker.go:137-142 | a half-open breaker closes if and only if the call is at least the SuccessThreshold-th success of the episode |
| `Breaker.OpensIffEnoughFailures` | pkg/stellar/circuitbreaker.go:125-133 | a closed breaker opens if and only if the call is at least the FailureThreshold-th failure in a row |
| `Breaker.ResetCloses` | pkg/stellar/circuitbreaker.go:182-190 | a reset closes the breaker from every state and none of the failures of before count |
| `Breaker.ClosedAdmits` | pkg/stellar/circuitbreaker.go:96-98 | a closed breaker lets every call through and changes nothing with it |
| `LeaseLock.Lock.constructor` | pkg/redis/lock.go:62-67 | a ttl that is not positive falls back to five minutes |
| `LeaseLock.Lock.Acquire` | pkg/redis/lock.go:75-98 | succeeds exactly when a token was minted, Redis answered and no live key was there |
| `LeaseLock.Lock.Renew` | pkg/redis/lock.go:30-35 | extends the key only while it holds this token |
| `LeaseLock.Lock.Release` | pkg/redis/lock.go:131-145 | deletes the key only while it holds this token, and forgets the token in any case |
| `LeaseLock.AtMostOneHolder` | pkg/redis/lock.go:100-127 | in every interleaving at most one client is inside its function with an unexpired lease |
| `LeaseLock.HolderIsUndisturbed` | pkg/redis/lock.go:24-43 | late releases and renewals of old holders leave the key alone, nobody else gets in, own renewals extend the lease |
| `LeaseLock.TenureIsExclusive` | pkg/redis/lock.go:104-127 | until it leaves or its lease ends, the holder stays the holder and everyone outside stays out |
| `LeaseLock.EntersIffFree` | pkg/redis/lock.go:75-98 | a client gets in if and only if there is no key or it has run out, and then holds it for one ttl |
| `LeaseLock.ReleaseFrees` | pkg/redis/lock.go:38-43 | from every reachable state an owner's release lets the next client in |
| `LeaseLock.LeavingHandsOver` | pkg/redis/lock.go:104-145 | a holder that leaves and releases hands the lock over at once |
| `LeaseLock.LeaseRunsOut` | pkg/redis/lock.go:30-35 | without renewal the lock is lost to the next client exactly when the lease has run out |
| `LeaseLock.HandOver` | pkg/redis/lock.go:75-145 | on the locks themselves: refused while held, taken after the release |
| `Money.AddIsExact` | pkg/money/money.go:189-204 | the wrap-around tests of addition and subtraction fire exactly when the true result does not fit |
| `Money.Sum` | pkg/money/money.go:237-246 | fails exactly when some prefix sum does not fit, otherwise returns the sum |
| `Money.RoundDivIsNearest` | pkg/money/money.go:333-346 | the quotient is a nearest integer, ties away from zero, for all signs |
| `Money.NearestIsUnique` | pkg/money/money.go:333-346 | there is only one such integer |
| `Money.MulDivIsExact` | pkg/money/money.go:214-220 | the result is that integer, an overflow exactly when it does not fit, and an error on a zero divisor |
| `Money.MulIntIsMulDivByOne` | pkg/money/money.go:207-209 | multiplication by an integer is exact and overflows as MulDiv with divisor 1 does |
| `MoneyText.SpaceIsWhiteSpace` | pkg/money/money.go:56-56 | the characters trimmed are exactly the Unicode white space |
| `MoneyText.AllDigits` | pkg/money/money.go:348-358 | true exactly for non-empty strings of digits |
| `MoneyText.TrimLeft` | pkg/money/money.go:56-56 | removes exactly the leading white space |
| `MoneyText.TrimRight` | pkg/money/money.go:56-56 | removes exactly the trailing white space |
| `MoneyText.IndexDot` | pkg/money/money.go:69-71 | finds the first dot |
| `MoneyText.NumeralSpells` | pkg/money/money.go:146-153 | a printed numeral spells its number |
| `MoneyText.ParsingIsExact` | pkg/money/money.go:55-97 | a text is white space around a core; a core in the grammar yields exactly the amount it denotes or an overflow; every other text is invalid |
| `MoneyText.PrintedFormParsesBack` | pkg/money/money.go:139-154 | parsing the printed form returns the amount, for every 64-bit count; exactly seven decimals are printed |
| `MoneyText.PrintedIsCanonical` | pkg/money/money.go:139-154 | the printed form is the only text of the amount with seven decimals, no leading zeros and no minus on zero |
| `MigrationNames.PathVersion` | cmd/migrate/migrate.go:74-80 | the version of a migration path is its stem |
| `MigrationNames.PrefixOf` | cmd/migrate/migrate.go:84-89 | the part before the first underscore, or all of it |
| `MigrationNames.SuffixesSortAlike` | cmd/migrate/migrate.go:93-112 | dot-free stems compare alike under any two suffixes that start with a dot |
| `MigrationNames.ListingsAgree` | cmd/migrate/migrate.go:407-412 | the up and down listings order their common stems alike |
| `Migrate.ResolveTargetIndex` | cmd/migrate/migrate.go:117-144 | the first exact version, else the only file with that bare prefix, else ambiguous or unknown |
| `Migrate.CollectUp` | cmd/migrate/migrate.go:215-229 | the loop with its two exits collects exactly the pending files up to the target, in order, at most count |
| `Migrate.SelectUpFiles` | cmd/migrate/migrate.go:205-230 | that plan for the resolved target, or the target's error |
| `Migrate.UpPlanIsExact` | cmd/migrate/migrate.go:215-229 | by positions: the plan is exactly the pending files not above the target, in order; with a count the first count of them |
| `Migrate.BuildOrder` | cmd/migrate/migrate.go:248-251 | every version of the up listing gets a position at which it stands |
| `Migrate.CollectDown` | cmd/migrate/migrate.go:253-268 | the loop computes the scan from the newest file with its early exit, for every input |
| `Migrate.SelectDownFiles` | cmd/migrate/migrate.go:236-269 | that scan for the resolved target, or the target's error |
| `Migrate.EarlyExitIsSoundIffInOrder` | cmd/migrate/migrate.go:257-259 | the early exit drops nothing, for all applied sets and targets, if and only if positions are in order |
| `Migrate.ListingsAreInOrder` | cmd/migrate/migrate.go:407-412 | paired listings are in order |
| `Migrate.ScannedIsPlanned` | cmd/migrate/migrate.go:232-269 | on paired listings down selects exactly the applied files above the target, newest first |
| `Migrate.DownPlanIsExact` | cmd/migrate/migrate.go:253-268 | by positions: exactly the applied files above the target, newest first; with a count the newest count of them |
| `Migrate.UnpairedDownFileHidesOthers` | cmd/migrate/migrate.go:248-259 | on sorted listings an unpaired down file ends the scan early and hides an applied file above the target |
| `Migrate.StemsWithPrefix` | cmd/migrate/migrate.go:187-193 | collects exactly the versions with a prefix |
| `Migrate.ExpandLegacyRows` | cmd/migrate/migrate.go:176-202 | rows count as applied, and bare-number rows count for every migration with that prefix |
| `Migrate.MigrationTable.RecordApplied` | cmd/migrate/migrate.go:299-310 | adds the version and clears its bare-prefix row |
| `Migrate.MigrationTable.RemoveApplied` | cmd/migrate/migrate.go:312-322 | removes the version and its bare-prefix row |
| `Migrate.BookingIsExact` | cmd/migrate/migrate.go:299-322 | the row of the version comes or goes and the bare row of its prefix goes in both cases |
| `Migrate.CountsAsApplied` | cmd/migrate/migrate.go:176-202 | a migration counts as applied if and only if it has a row, or is listed and its prefix has a bare row of digits |
| `Migrate.RevertForgetsSiblings` | cmd/migrate/migrate.go:312-322 | after reverting one migration another one of its prefix counts as applied if and only if it has a row of its own |
| `Migrate.MigrationTable.Execute` | cmd/migrate/migrate.go:324-367 | runs a plan in order up to the first failure, with exactly the finished migrations booked |
| `Migrate.UpRunsToTarget` | cmd/migrate/migrate.go:369-400 | an unlimited up run applies everything up to its target and a second one selects nothing |
| `Migrate.DownThenUpRestores` | cmd/migrate/migrate.go:402-433 | down to a target removes exactly the reversible versions above it, and up again restores the table |
| `Hub.UnregisterAgreesIffKnown` | internal/websocket/hub.go:72-95 | unregistering keeps the three maps in agreement if and only if the id is not registered for another user |
| `Hub.MapsAlwaysAgree` | internal/websocket/hub.go:50-150 | in every reachable state the user index is exactly the grouping of the clients, without empty groups, and room members are registered |
| `Hub.RegistersExactly` | internal/websocket/hub.go:50-95 | one step, both directions: who is registered afterwards and as whom |
| `Hub.RegisteredIffLetIn` | internal/websocket/hub.go:50-95 | in every run a client is registered if and only if it was let in and not unregistered since |
| `Hub.MovesExactly` | internal/websocket/hub.go:72-150 | one step, both directions: who is in which room afterwards |
| `Hub.InRoomIffJoined` | internal/websocket/hub.go:112-150 | in every run a client is in a room if and only if it joined it while registered and neither left it nor was unregistered since |
| `Hub.EmptyRoomIff` | internal/websocket/hub.go:120-135 | an empty room appears if and only if an unknown client joins a new room without an authorizer |
| `Hub.RoomsAreNeverEmpty` | internal/websocket/hub.go:87-150 | otherwise no run has an empty room |
| `Hub.ClosedOnlyShrinks` | internal/websocket/hub.go:52-57 | a closed hub stays closed and only loses clients |
| `Hub.ShutdownIsFinal` | internal/websocket/hub.go:333-375 | once shutdown has drained its clients, nobody is registered, indexed or in a room ever again |
| `Hub.PickRecipients` | internal/websocket/hub.go:229-241 | exactly one member of every user group of the room, in whatever order it is iterated |
| `Hub.GroupsAreUsers` | internal/websocket/hub.go:231-236 | named connections are one group exactly when of one user, anonymous ones exactly when the same, and when a named one meets an anonymous one |
| `Hub.JoinedIsReached` | internal/websocket/hub.go:229-241 | a broadcast to a room has a recipient of every member's group |
| `Hub.SlowAreFull` | internal/websocket/hub.go:243-252 | exactly the recipients with full buffers are dropped |
| `Hub.WebsocketHub.constructor` | internal/websocket/hub.go:41-47 | a new hub is empty and open |
| `Hub.WebsocketHub.RegisterClient` | internal/websocket/hub.go:50-68 | equals the register step; nothing once closed or for a known id |
| `Hub.WebsocketHub.UnregisterClient` | internal/websocket/hub.go:72-95 | equals the unregister step on all three maps |
| `Hub.WebsocketHub.LeaveAllRooms` | internal/websocket/hub.go:87-92 | the loop takes the client out of every room and drops the rooms left empty |
| `Hub.WebsocketHub.JoinRoom` | internal/websocket/hub.go:112-135 | equals the join step; refused without membership; an unknown client may create an empty room |
| `Hub.WebsocketHub.LeaveRoom` | internal/websocket/hub.go:140-150 | equals the leave step; drops the room it empties |
| `Hub.WebsocketHub.Recipients` | internal/websocket/hub.go:214-241 | the part of a broadcast under the lock: one client per user group of the room, none without a room |
| `Hub.WebsocketHub.Broadcast` | internal/websocket/hub.go:214-264 | sends to one client per group and unregisters exactly the recipients with full buffers, with any steps of others before each of them |
| `Hub.DropsAreSteps` | internal/websocket/hub.go:243-263 | the drops of a broadcast among other steps are a run of the hub |
| `Hub.WebsocketHub.ForceShutdown` | internal/websocket/hub.go:354-369 | closes the hub and empties all three maps |
| `Limiters.TokenBucket.Allow` | internal/websocket/backoff.go:79-96 | the refill-and-take step and its answer |
| `Limiters.SpentPlusLeft` | internal/websocket/backoff.go:79-96 | calls admitted since s plus tokens left never exceed one burst plus what trickled in since s |
| `Limiters.BucketBound` | internal/websocket/backoff.go:71-96 | in every run at most burst + refill*(t-s) calls are admitted in [s, t] |
| `Limiters.BucketAdmitsIff` | internal/websocket/backoff.go:79-96 | a call is admitted if and only if with it no more than burst + refill*(t-s) calls are admitted since any s: the bucket refuses only what the bound forbids |
| `Limiters.PatientCallIsAdmitted` | internal/websocket/backoff.go:85-88 | a call that waits for one token to trickle in is admitted |
| `Limiters.BridgeRateLimiter.Allow` | internal/websocket/redis_bridge.go:44-69 | the pruning loop keeps exactly the recent times and answers by their number |
| `Limiters.PruningLosesNothing` | internal/websocket/redis_bridge.go:54-59 | the pruned list and the full log have the same recent admissions at every later time |
| `Limiters.WindowBound` | internal/websocket/redis_bridge.go:44-69 | in every run at most maxRate requests of a key are admitted in any window (x-w, x] |
| `Limiters.RejectsOnlyWhenFull` | internal/websocket/redis_bridge.go:61-64 | a rejection means that the window behind it holds exactly maxRate admissions |
| `Limiters.WindowAdmitsIff` | internal/websocket/redis_bridge.go:44-69 | a request is admitted if and only if fewer than maxRate of its key were admitted in the window behind it |
| `Limiters.UnlimitedPasses` | internal/websocket/redis_bridge.go:45-47 | without a key or a limit every request passes and leaves no trace |
| `Limiters.KeysAreSeparate` | internal/websocket/redis_bridge.go:52-69 | keys do not share a window |
| `JobQueue.Queue.Enqueue` | pkg/jobqueue/jobqueue.go:53-97 | adds a pending job with a positive retry limit, 3 by default |
| `JobQueue.Queue.Dequeue` | pkg/jobqueue/jobqueue.go:137-150 | hands out some ready job and marks it, or shows that none is ready |
| `JobQueue.Queue.Complete` | pkg/jobqueue/jobqueue.go:159-166 | marks the job completed |
| `JobQueue.Queue.Fail` | pkg/jobqueue/jobqueue.go:201-217 | counts the failure and reschedules with the doubled 64-bit delay, or dead-letters at the limit |
| `JobQueue.Queue.RetryDeadLetterJob` | pkg/jobqueue/jobqueue.go:276-287 | resets exactly dead-letter jobs |
| `JobQueue.Queue.ProcessOne` | pkg/jobqueue/worker.go:88-113 | one round of the loop, with a clock reading before and one after the handler, lowers the attempts left in total |
| `JobQueue.Queue.DrainQueue` | pkg/jobqueue/worker.go:88-99 | terminates, leaves no job of the queue ready, touches no other queue, runs no more often than attempts were left; every run is of a ready job and books the handler's outcome |
| `JobQueue.ProcessingUsesAttempts` | pkg/jobqueue/worker.go:101-113 | a failed run uses exactly one attempt of the total, a successful one at least one |
| `JobQueue.BackoffIsExactIff` | pkg/jobqueue/jobqueue.go:213-213 | the 64-bit delay is 2^retries seconds if and only if retries is at most 33 |
| `JobQueue.BackoffTurnsNegative` | pkg/jobqueue/jobqueue.go:213-213 | the 34th failure yields a negative delay |
| `JobQueue.BackoffAddsUp` | pkg/jobqueue/jobqueue.go:209-214 | over k <= 33 failures the delays add up to 2^(k+1)-2 seconds, and the MaxRetries-th failure dead-letters the job |
| `JobQueue.AttemptsAreBounded` | pkg/jobqueue/jobqueue.go:100-217 | with any number of workers no two hold one job, live jobs have attempts left, and no job is handed out more than MaxRetries times per enqueue or retry |
| `JobQueue.HandedOutIff` | pkg/jobqueue/jobqueue.go:137-150 | in every run a job is handed out if and only if it is pending in that queue and its time has come |
| `JobQueue.NewJobIsDue` | pkg/jobqueue/jobqueue.go:53-97 | a new job is handed out from its time on, in its queue, with its own limit or 3 |
| `JobQueue.FailedJobIsDue` | pkg/jobqueue/jobqueue.go:201-217 | after its n-th failure a job is due again exactly 2^n seconds later, or never if that was the last |
| `JobQueue.FinishedJobIsCompleted` | pkg/jobqueue/jobqueue.go:159-166 | a job whose run succeeds is completed |
| `JobQueue.SettledStays` | pkg/jobqueue/jobqueue.go:137-150 | completed and dead jobs stay as they are and out of every hand until retried |
| `JobQueue.RetriedJobIsDue` | pkg/jobqueue/jobqueue.go:276-287 | a retried dead job is due at once with all attempts back; other jobs are left alone |

## Left out

- HTTP handlers, router, start-up, tracing, metrics, configuration, message broker and Horizon clients: input, output and wiring.
- Event decoding and dispatch: the models start from typed contributions, payouts and transactions.
- Domain handlers behind an event (circles, members, notifications): of the processor only the event table is modelled.
- Reconciler.LedgerReconciler.Reconcile: one call with no other writer in between; what a cycle visits among other writers is Runs.CycleIsUndisturbed, and interleavings ledger by ledger are the runs of Safety.NoAbandonedEvents and Reconciler.CursorNeverSkipsALedger.
- Safety.NoAbandonedEvents: runs in which a checkpoint is lost are outside its hypothesis; what they expose is Gaps.LostCheckpointExposes, and Gaps.NextSwapIsRepairedIffGuarded covers them on growing chains.
- Splits.SplitRunsKeepNoAbandonedEvents: the visits of a replay and its checkpoint are one step.
- Convergence of the event table after a rollback: it does not hold; Delivery.EventIsStoredIff says exactly which rows return.
- Payout and contribution amounts as floating point, and the circle lock key: amounts are integers and the lock makes a transaction one step.
- onCircleCompleted, which overwrites a circle's total: outside the conservation runs.
- Lock without Redis: it grants everyone by design.
- Lock.With as one call: its parts (acquire, heartbeat, leave, release) are separate steps that may interleave with everything else.
- Money.FromFloat64, Percent, Scan and the JSON forms: float input and wrappers around the parser.
- Migration option validation, the advisory lock and the SQL of the migrations.
- Migrate.DownThenUpRestores: tables with bare-prefix rows are outside it; what reverting does to them is Migrate.RevertForgetsSiblings.
- Hub audits, which take clients out of rooms they may no longer be in, single-user broadcast, which sends to one user's connections, and the close-frame hint, which tells clients when to reconnect.
- Hub.WebsocketHub.ForceShutdown: models the forced end of a shutdown; waiting for clients to leave on their own is covered by Hub.ShutdownIsFinal over interleaved steps.
- The PostgreSQL path of the job queue: the in-memory table is modelled.
