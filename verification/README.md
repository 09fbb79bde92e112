# Platform core: a verified model

The platform layer under `backend/app/core` holds several small concurrent protocols over shared rows,
plus exact arithmetic and graph code. This project models them in Dafny and proves what they keep over
every run.

| file | models |
|---|---|
| `Idempotency.dfy` | the reservation protocol of `idempotency.py` with the retention purge: many requests interleaved statement by statement, crashes included |
| `Jobs.dfy`, `Sweeper.dfy` | the runner of `jobs.py` and the sweeper of `job_sweeper.py`: claims, terminal writes, stale scans, conditional bulk updates, and the 50-row budget |
| `EndToEnd.dfy` | both together on a job-submitting endpoint |
| `Events.dfy` | the unit of work and event drain of `events.py` |
| `Numbering.dfy`, `NumberFormat.dfy` | gapless counters of `numbering.py` under READ COMMITTED, and the number text |
| `Docflow.dfy` | the recursive chain query of `docflow.py` |
| `Allocation.dfy`, `ScaledStorage.dfy` | the splitter and the scaled-integer columns of `money.py` |
| `Conditional.dfy` | the collection validator and If-None-Match check of `conditional.py` |
| `Journal.dfy` | the triggers and constraints of the journal migration |
| `DecimalText.dfy`, `Options.dfy` | shared text and option helpers |

`dafny verify dfyconfig.toml` checks everything.

## How the protocols are modelled

A protocol is a state, a set of actions with the guard under which each database statement can run
(`Enabled`) and its effect (`Apply`), and runs as arbitrary action lists (`Legal`, `Final`). A statement
that would wait for a row lock is simply not enabled until the lock is gone. Crashes are ordinary
actions. Classes model the objects the code updates in place; their methods are specified by the same
functions the actions use. History variables (`owners`, `documents`, `claims`, `effects`, `log`) are
written by actions and read by none of them.

Assumptions, all stated as predicates in the code:

- `Idempotency.NoHeldPurged`: no purge takes a key whose reserver is still in flight. Cleanup and capture
  address the row by key and not by owner, so this is needed, and it is exact: a run keeps the invariant
  throughout if and only if it never happens (`RunInvIffLegal`), and a purge that does it leads to two
  holders of one key (`HeldPurgeMakesTwoHolders`). Requests shorter than the retention window are safe
  (`TimelyRunIsLegal`).
- Handlers capture inside their unit of work and let exceptions through. Request hashes are injective.
  Job ids are fresh when their row is inserted.
- `Journal.Disciplined`: what the triggers leave to the application. It is exact: each clause is necessary
  (`SafeIffDisciplined`).
- `Conditional.Hides`: 304s are sound if and only if no three rows hide a change
  (`SoundIffNothingHidden`); writes stamped after the rows they found never do (`LaterStampsHideNothing`).
- `NumberFormat.Clash`: committed numbers are unique if and only if no two sequences of the tenant have
  clashing prefixes (`UniqueIffNoClash`).
- `Docflow.IdTexts`: ids render as fixed-width comma-free text without LIKE wildcards.
- Decimals are exact rationals; an allocation's amounts are counted in its own minor unit.

## Where the code and its documentation differ

- `job_sweeper.py:53-54` says an abandoned job stays FAILED, and lines 41-43 that the terminal status is
  written conditionally; `jobs.py:332-338` writes it unconditionally, so a slow handler still commits
  COMPLETED (`SlowHandlerOverwritesFailed`). FAILED stays exactly when no runner is still in its handler
  (`FailedIsFinalIffNoRunner`). COMPLETED is final.
- `docflow.py:282-283` describes the `forward` flag the other way round from lines 289-290; the union of
  both directions hides it. Lines 327-328 call the result the connected component; siblings are missed,
  and `ComponentIffClosed` gives the exact condition.
- `money.py:174` says the parts always reconstitute the total; that holds exactly for totals that are whole
  minor units (`PartsSum`). It also says ties break by original index; a negative residual charges the
  highest index first (`TiesFollowTheIndex`). With negative weights the split need not be the closest one;
  `OptimalIffSidesTight` says for which inputs it is.
- `money.py:177` describes the even split for weights that are all zero; the code takes it whenever they
  sum to zero, and then the larger weight can get the lesser part (`ZeroSumIgnoresWeights`,
  `LargerWeightNeverLess`).
- `conditional.py:11-13` calls (count, newest stamp) a sound validator; a delete and an insert that share a
  stamp leave it alone (`EqualStampsHideAChange`), and `HiddenIffRowsHide` is the exact condition.
- `docflow.py:62-73` expects document numbers to be unique per tenant, while `numbering.py:64` accepts any
  prefix; clashing prefixes do collide (`CollideIffClash`).
- `0009_finance_journal.py:25-27` says no financial column of a POSTED header may change; NULL on either
  side of number or period slips through (`PostedUpdateExactly`).

## Model

| member | source | states |
|---|---|---|
| `EndToEnd.OneKeyOneRun` | backend/app/core/jobs.py:13-16 | over every interleaving of retries, runners, crashes, sweepers and purges in which no purge takes a key a request still holds, one Idempotency-Key yields at most one job row and at most one committed handler run per retention window |
| `EndToEnd.EveryJobHasOneSubmission` | backend/app/core/jobs.py:169-193 | every job row was submitted by exactly one request, and its business writes are committed once if it is COMPLETED and not at all otherwise |
| `EndToEnd.ReplayReturnsTheJob` | backend/app/core/jobs.py:13-16 | every replay returns the id of an existing job that was submitted under the replaying request's own key and hash |
| `EndToEnd.AnswersAgree` | backend/app/core/idempotency.py:208-260 | all answers a key ever gives, fresh or replayed, name one job, unless their submissions were reserved more than the retention window apart |
| `EndToEnd.InvIffNoHeldPurged` | backend/app/core/job_sweeper.py:239-259 | a step of the combined system keeps its invariant if and only if it does not purge a key that a request still holds |
| `Idempotency.OneHolderPerKey` | backend/app/core/idempotency.py:208-235 | in every state reached by runs in which no purge takes a key a request still holds, at most one request is in flight as owner of a (tenant, endpoint, key) |
| `Idempotency.CompletedIffDocument` | backend/app/core/idempotency.py:160-197 | a row is completed exactly when the request that reserved it committed a document; that document is unique and carries the row's hash and response; and every document keeps its completed row for the whole retention window |
| `Idempotency.AtMostOncePerWindow` | backend/app/core/job_sweeper.py:90-96 | two documents committed under one key were reserved more than the retention window apart |
| `Idempotency.RepliesWithoutEffect` | backend/app/core/idempotency.py:237-260 | a replayed, refused, conflicting or row-gone request commits no document; a replay returns the response of a committed document with its key and hash; a key-reuse refusal met one with another hash |
| `Idempotency.LaterRequestIsAnswered` | backend/app/core/idempotency.py:237-260 | while a committed document's key is retained, any request with that key collides and, when it looks, gets the stored response if its hash matches and a refusal otherwise |
| `Idempotency.VerdictExact` | backend/app/core/idempotency.py:237-260 | the verdict after a collision matches what really happened: row gone exactly when no reservation is on record, in progress exactly when the one on record committed nothing, otherwise replay or refusal by its document's hash |
| `Idempotency.NobodyWaits` | backend/app/core/idempotency.py:208-282 | in every reachable state every request can take its next statement at once, and a purge is possible exactly for at most 500 keys older than seven days whose rows no open transaction has written |
| `Idempotency.RequestCommits` | backend/app/core/idempotency.py:357-383 | a request on a free key that captures and commits leaves exactly one more document and the completed row with its hash, response and stamp |
| `Idempotency.RequestFails` | backend/app/core/idempotency.py:357-367 | a request on a free key whose handler raises leaves the table and the documents as they were |
| `Idempotency.RequestCrashes` | backend/app/core/idempotency.py:237-260 | after a crash mid-handler the in-progress row stays, and a later request with that key is told it is in progress |
| `Idempotency.CleanupFreesTheKey` | backend/app/core/idempotency.py:357-367 | the teardown of a request that committed nothing lets the next request reserve the key; the teardown of one that committed leaves its replay record |
| `Idempotency.StepKeepsInv` | backend/app/core/idempotency.py:357-383 | every statement of every request, crash, cleanup, and purge of keys nobody holds keeps the protocol invariant |
| `Idempotency.InvIffNoHeldPurged` | backend/app/core/job_sweeper.py:239-259 | a step keeps the invariant if and only if it does not purge a key that a request still holds |
| `Idempotency.RunInvIffLegal` | backend/app/core/job_sweeper.py:239-259 | from any good state, the invariant holds after every step of a run if and only if no purge of the run takes a held key |
| `Idempotency.HeldPurgeMakesTwoHolders` | backend/app/core/job_sweeper.py:239-259 | purging any held key lets another request reserve it, after which two requests hold one key |
| `Idempotency.TimelyIsEnough` | backend/app/core/job_sweeper.py:90-96 | while every request in flight is younger than the retention window, no purge takes a held key |
| `Idempotency.TimelyRunIsLegal` | backend/app/core/job_sweeper.py:90-96 | a run in which no request ever outlives the retention window purges no held key, so every result above holds for it |
| `Idempotency.OutlivingRequestBreaksReplay` | backend/app/core/idempotency.py:182-188 | a concrete run in which a held key is purged: its owner's capture, addressed by key alone, completes another request's row, and a third request is replayed a response no document with its hash ever had |
| `Idempotency.KeyTable.Reserve` | backend/app/core/idempotency.py:208-260 | without interleaving: a free key gets an in-progress row with the request's hash and the present stamp; otherwise the table is unchanged and the verdict is the stored response, key-reuse or in-progress by the row's own fields, never row-gone |
| `Idempotency.KeyTable.CaptureResponse` | backend/app/core/idempotency.py:160-197 | puts the response into the addressed row, keeping its hash and stamp, and touches no other |
| `Idempotency.KeyTable.CleanupReservation` | backend/app/core/idempotency.py:263-282 | deletes the addressed row only while in progress; every completed row and every other key survives |
| `Idempotency.KeyTable.PurgeKeys` | backend/app/core/job_sweeper.py:239-259 | deletes only rows created over seven days ago, completed or not, at most 500; when it deletes fewer, no such row is left |
| `Jobs.AtMostOneClaim` | backend/app/core/jobs.py:312-321 | for any number of dispatches, concurrent runners, stale sweeper scans and crashes, at most one runner ever wins a job's claim |
| `Jobs.EffectsIffCompleted` | backend/app/core/jobs.py:323-347 | in every reachable state a job's business writes are committed exactly once if it is COMPLETED and not at all otherwise |
| `Jobs.StatusChanges` | backend/app/core/job_sweeper.py:191-236 | each step may only move PENDING to RUNNING by a claim, RUNNING to COMPLETED or FAILED, and FAILED to COMPLETED by the one claim holder's commit; no other status change exists |
| `Jobs.CompletedIsFinal` | backend/app/core/job_sweeper.py:199-202 | over whole runs a COMPLETED row is never overwritten and no row that left PENDING returns to it |
| `Jobs.SlowHandlerOverwritesFailed` | backend/app/core/jobs.py:332-338 | a legal run from the empty system in which the sweeper gives up on a slow handler and its runner then commits COMPLETED over FAILED |
| `Jobs.FailedIsFinalIffNoRunner` | backend/app/core/job_sweeper.py:53-54 | a FAILED row stays FAILED in every continuation if and only if no runner is still executing that job's handler |
| `Jobs.StepKeepsInv` | backend/app/core/jobs.py:296-346 | every runner, sweeper, submit and crash step keeps the job invariant |
| `Jobs.StepWrites` | backend/app/core/jobs.py:296-347 | under the invariant every job row after any step is pinned: a claim writes RUNNING, a commit COMPLETED, the failure write FAILED, a sweep one more attempt or FAILED, all at the present time with every other row unchanged; only a submit adds a row, PENDING with no attempts |
| `Jobs.RunnerFinishes` | backend/app/core/jobs.py:296-347 | a runner dispatched for a PENDING job can claim and finish it, ending COMPLETED with one effect or FAILED with none, whatever else is in flight |
| `Jobs.SweepWithoutRaces` | backend/app/core/job_sweeper.py:148-236 | a scan and sweep with nothing between them give every picked PENDING row one more attempt and fail every picked RUNNING row |
| `Jobs.StaleIffOverdue` | backend/app/core/job_sweeper.py:112-114 | stale means PENDING and untouched for over 10 minutes or RUNNING and untouched for over two hours, and nothing else |
| `Jobs.CrashedJobIsGivenUp` | backend/app/core/job_sweeper.py:191-236 | a job whose process died mid-handler is failed by the first sweep after two hours and then stays FAILED for good |
| `Jobs.JobTable.SubmitJob` | backend/app/core/jobs.py:170-193 | an unregistered job type is refused with nothing changed; otherwise the one new row is PENDING with no attempts |
| `Jobs.JobTable.ClaimPending` | backend/app/core/jobs.py:312-321 | wins exactly when the row was PENDING, which then is RUNNING with its attempts kept and the present stamp; otherwise nothing changes |
| `Jobs.JobTable.RunHandler` | backend/app/core/jobs.py:296-346 | without interleaving: the handler runs exactly when the row was PENDING, and then the row is COMPLETED if it succeeded and FAILED if not, attempts kept, stamped now, no other row touched |
| `Sweeper.TickHandlesItsPick` | backend/app/core/job_sweeper.py:148-188 | a tick picks the min(50, n) oldest of n stale rows and none of them is stale at that moment afterwards, whatever raced the scan; no other row becomes stale |
| `Sweeper.BacklogDrains` | backend/app/core/job_sweeper.py:36-46 | when no new row goes stale, k ticks leave at most max(0, n - 50k) of a backlog of n |
| `Sweeper.NoStarvation` | backend/app/core/job_sweeper.py:152-170 | even while runners race every scan and new rows keep going stale, a stale row with m unfinished rows stamped no later than its own is picked, or already moved on by someone else, within ceil(m/50) ticks |
| `Sweeper.StaleRowIsServed` | backend/app/core/job_sweeper.py:117-188 | over runs of the runner machine with crashes, races and other sweepers: a stale row with m unfinished rows stamped no later than its own has been written (dispatched again, failed or moved on) after ceil(m/50) sweeps whose scans are oldest first |
| `Sweeper.MachineEvolves` | backend/app/core/job_sweeper.py:220-236 | every run of the runner machine only rewrites job rows at the present time and never deletes one, so the sweeper results apply around it |
| `Sweeper.PickIsOverdue` | backend/app/core/job_sweeper.py:152-170 | an ordered pick holds overdue rows only, and all of them when it holds fewer than 50 |
| `Sweeper.WithStatusExact` | backend/app/core/job_sweeper.py:174-175 | splitting a scan by status keeps its order and exactly the ids of that status |
| `Sweeper.SweeperLoop.ScanStale` | backend/app/core/job_sweeper.py:152-170 | returns distinct rows, least recently written first, and they are the min(50, n) oldest rows PENDING for over 10 minutes or RUNNING for over two hours |
| `Sweeper.SweeperLoop.UpdateRows` | backend/app/core/job_sweeper.py:174-236 | gives each picked row still PENDING one more attempt and each picked row still RUNNING the status FAILED, both stamped now, touches nothing else, counts both, and returns the reclaimed ids in scan order |
| `Sweeper.SweeperLoop.ScheduleAll` | backend/app/core/job_sweeper.py:139-142 | dispatches every reclaimed id in order, after the update |
| `Sweeper.SweeperLoop.SweepStaleJobs` | backend/app/core/job_sweeper.py:117-145 | one whole tick: reclaims or fails exactly the min(50, backlog) oldest overdue rows, dispatches the reclaimed ids once each and oldest first, purges at most 500 keys older than seven days and no other; the three counts returned are exactly the rows reclaimed, abandoned and purged |
| `Events.DrainIsLevelOrder` | backend/app/core/events.py:195-212 | the FIFO drain succeeds exactly when the publish forest (each level being the events the previous level's handler runs published) can be worked off level by level within the cap; then the log is the levels in order, events in publish order, handlers in registration order, and the store is the left fold of the handlers over that log |
| `Events.DrainExactly` | backend/app/core/events.py:195-212 | the drain's answer is the only one its FIFO order admits: the complete log with its fold of stores when that log is at most the cap long, and otherwise the first failing dispatch or the cycle error |
| `Events.CompleteNeverFails` | backend/app/core/events.py:195-212 | no drain both has a complete log within the cap and a failing one, so success and failure exclude each other |
| `Events.PlanOne` | backend/app/core/events.py:139-141 | an event is dispatched once to each handler registered for its key, in registration order, and to none when the key has none |
| `Events.CapOnlyCountsDispatches` | backend/app/core/events.py:206-209 | a cascade that finishes in k dispatches ends the same under every cap of at least k, and is a cycle error under every smaller cap |
| `Events.DrainsIffFinishes` | backend/app/core/events.py:195-212 | the drain succeeds if and only if some log of at most 50 successful dispatches in FIFO order leaves nothing due |
| `Events.PublishedWaitsItsTurn` | backend/app/core/events.py:180-212 | a published event is dispatched after the handlers of everything published before it, to its own handlers in registration order, and before anything those handlers publish |
| `Events.HandleAll` | backend/app/core/events.py:205-209 | a success adds exactly one dispatch per handler and stays within the cap |
| `Events.Registry.Subscribe` | backend/app/core/events.py:118-121 | appends the handler to its key and changes no other key |
| `Events.Session.DrainAndDispatch` | backend/app/core/events.py:195-212 | on success the log returned is a complete FIFO run of at most 50 dispatches, the working rows are the left fold of the handlers over it, and the buffer is empty; a failure is the first handler that raised in that order, or a dispatch beyond the 50th |
| `Events.Session.RunInUow` | backend/app/core/events.py:215-245 | on success the committed rows are what the work wrote with every handler of the returned complete FIFO log applied in turn; work that raises, a handler that raises, a cycle or a failed commit leaves the committed rows unchanged and is reported as such; the buffer ends empty and no uncommitted row survives |
| `Numbering.GaplessNumbering` | backend/app/core/numbering.py:189-269 | over every interleaving of transactions that claim, commit or roll back, the committed values of each counter are exactly 1..k in commit order, next_value is k + 1, and no transaction reaches the lost-counter branch |
| `Numbering.OneHolderPerCounter` | backend/app/core/numbering.py:272-295 | however many transactions open the same new year at once, at most one holds the counter row |
| `Numbering.LoserKeepsItsWork` | backend/app/core/numbering.py:277-295 | losing the creation race keeps the transaction's writes and claims, and its next increment claims the winner row's next value, one more than the number of committed claims |
| `Numbering.ClaimIsNext` | backend/app/core/numbering.py:249-269 | an increment claims exactly one more than all committed claims and all own claims of the counter, and finds no row only when there have been none of either |
| `Numbering.OtherCountersUntouched` | backend/app/core/numbering.py:71-87 | from any state, with any transactions in flight on any counters: over a run without a claim on a counter, a pending write to it stands until its transaction ends, and the committed row changes exactly when a transaction that already held the counter commits, then to that very write |
| `Numbering.CommittedNumbersAreUnique` | backend/app/core/docflow.py:62-73 | for any prefixes of which no two clash at a year from 1 to 9999, no two committed claims of a tenant ever format to the same document number |
| `Numbering.UniqueIffNoClash` | backend/app/core/docflow.py:62-73 | document numbers of a tenant, claimed on dates of years 1 to 9999, are unique in every run if and only if no two of its sequences clash; for clashing ones some run commits the same number twice |
| `Numbering.SharedCounter` | backend/app/core/numbering.py:229-230 | two claims share a counter if and only if tenant and sequence agree, and the year too when the sequence resets yearly; each such claim is configured |
| `Numbering.YearlessRunsOn` | backend/app/core/numbering.py:229-230 | over every configured run the committed values of a sequence without year reset, on whatever dates, are 1..k in commit order |
| `Numbering.ClaimsAreConfigured` | backend/app/core/numbering.py:189-246 | a run in which a tenant's increments all go to its sequences' counters commits only configured claims, so the uniqueness results apply to it |
| `Numbering.StepKeepsInv` | backend/app/core/numbering.py:249-295 | every statement, commit and rollback keeps the numbering invariant |
| `Numbering.CounterStore.IncrementCounter` | backend/app/core/numbering.py:249-269 | claims the number after all committed and all own ones and keeps the numbering invariant; no value means the counter has no committed number |
| `Numbering.CounterStore.CreateCounter` | backend/app/core/numbering.py:272-295 | afterwards the counter is claimable, whoever created it, every earlier claim and write of the transaction stands, and the invariant holds |
| `Numbering.CounterStore.ClaimValue` | backend/app/core/numbering.py:229-244 | by statements of this transaction on this counter alone, claims exactly the value after all committed and all own ones, 1 for a new counter, creating it if needed, and leaves other transactions and all committed rows alone |
| `Numbering.CounterStore.ClaimNumber` | backend/app/core/numbering.py:189-246 | the claim is made on the sequence's one counter, or on the date's year when the sequence resets yearly; its value is one more than all committed and own claims there and the text is prefix, year if any, and padded value; it is a step of a configured run, so the uniqueness results cover it; a missing sequence is reported with nothing changed and the lost-counter error is never returned |
| `NumberFormat.ParsesBack` | backend/app/core/numbering.py:122-128 | formatting then parsing recovers prefix, year and value for every hyphen-free prefix, also when the value outgrows the padding |
| `NumberFormat.PaddingKept` | backend/app/core/numbering.py:122-128 | the text is the prefix, the year between hyphens when the sequence resets yearly, and the value in exactly max(padding, its digits) digits |
| `DecimalText.DigitsExact` | backend/app/core/numbering.py:122-128 | the rendered number is the one digit string of that value without a leading zero |
| `NumberFormat.NoCollision` | backend/app/core/numbering.py:122-128 | for any prefixes and paddings, equal numbers have equal values; under one year rule also equal prefixes and years; and a yearless prefix then is the year-reset prefix followed by a hyphen and that very year |
| `NumberFormat.CollideIffClash` | backend/app/core/numbering.py:122-128 | two sequences collide for some values and years from 1 to 9999 if and only if their prefixes are equal under one year rule, or the yearless prefix is the other followed by a hyphen and such a year |
| `NumberFormat.OneSequenceNeverCollides` | backend/app/core/numbering.py:122-128 | within one sequence the text determines year and value, whatever the prefix |
| `Docflow.ChainNodesExact` | backend/app/core/docflow.py:322-366 | on any link graph, cyclic or not, the nodes are exactly the tenant's registered documents within 20 hops along or against the links |
| `Docflow.ChainEdgesExact` | backend/app/core/docflow.py:367-384 | the edges are exactly the tenant's links whose two ends are both such documents |
| `Docflow.ReachExact` | backend/app/core/docflow.py:277-319 | one direction of the recursive query collects exactly the documents within the depth cap, because every walk shortens to a simple path |
| `Docflow.Shorten` | backend/app/core/docflow.py:304-318 | every walk shortens to a simple path between the same ends |
| `Docflow.GuardSearchesEntries` | backend/app/core/docflow.py:292-316 | for any path and comma-free id the text guard finds the id exactly when it occurs inside a visited id |
| `Docflow.VisitedGuardExact` | backend/app/core/docflow.py:292-316 | for fixed-width comma-free ids the comma-joined path text contains an id if and only if the path visited it |
| `Docflow.GuardBoundsDepth` | backend/app/core/docflow.py:282-286 | whatever the depth cap, the visited guard alone empties the working table after as many steps as there are documents, cycles included |
| `Docflow.ForwardFlagWalksToPredecessors` | backend/app/core/docflow.py:289-290 | the flag named forward steps to predecessors and its negation to successors |
| `Docflow.ComponentIffClosed` | backend/app/core/docflow.py:325-330 | the traversal yields the documented connected component if and only if no link of the tenant has exactly one end within twenty hops of the start |
| `Docflow.SiblingIsMissed` | backend/app/core/docflow.py:325-330 | two children of one parent are connected, yet the chain of one omits the other |
| `Allocation.PartsSum` | backend/app/core/money.py:168-206 | for every total and weight list the parts sum to within half a minor unit of the total, and to exactly the total if and only if it is a whole number of minor units |
| `Allocation.NeverWraps` | backend/app/core/money.py:197-205 | at most n units are ever left to hand out, for any weights and either sign, so the loop index never wraps |
| `Allocation.AllocationIsOptimal` | backend/app/core/money.py:191-206 | for non-negative weights no split into whole minor units with the same sum has a smaller sum of squared deviations from total * weight / sum of weights, or from the even share when that sum is zero |
| `Allocation.OptimalIffSidesTight` | backend/app/core/money.py:191-206 | for all weights: no whole-unit split of that sum is closer to those same shares if and only if, among the indices that got a unit and among those that did not, no two remainders are more than one unit apart |
| `Allocation.PartsAreLargestRemainder` | backend/app/core/money.py:191-206 | for all totals and weights the parts are the largest-remainder split of the exact shares: cut toward zero, the rounded residual handed out one unit each by largest remainder, ties by index |
| `Allocation.LargestRemainderUnique` | backend/app/core/money.py:191-206 | that description leaves nothing open: at most one split meets it |
| `Allocation.OptimalIffTight` | backend/app/core/money.py:191-206 | a whole-unit split is optimal exactly when no two parts' deviations differ by more than one unit |
| `Allocation.NegativeWeightNotOptimal` | backend/app/core/money.py:191-206 | an input with a negative weight that fails this condition and whose split is not optimal |
| `Allocation.WithinOneUnit` | backend/app/core/money.py:191-205 | for all weights, cross-multiplied: part * W differs from total * weight by less than W, the absolute weight sum; when the sum is zero, part * n differs from the total by less than n |
| `Allocation.LargerWeightNeverLess` | backend/app/core/money.py:180-206 | for weights of any sign a strictly larger weight never gets the lesser part when total and weight sum agree in sign and never the greater when they disagree, and a zero total gives zeros; for weights that sum to zero it gets the lesser part exactly when the cut of the even split lies between the two indices |
| `Allocation.TiesFollowTheIndex` | backend/app/core/money.py:180-206 | equal weights, and any weights that sum to zero, differ by at most one unit and the lower index is never the lesser, which for a negative residual means the higher index is charged first |
| `Allocation.EvenSplit` | backend/app/core/money.py:184-206 | for weights that sum to zero every index gets the even share rounded down, and the units left over are given from the front or taken from the back |
| `Allocation.ZeroSumIgnoresWeights` | backend/app/core/money.py:184-188 | 1 split by weights (-1, 1) is (1, 0): the larger weight gets the lesser part |
| `Allocation.Allocate` | backend/app/core/money.py:168-206 | returns one whole-unit part per weight: the largest-remainder split of total * weight / weight sum (the even share for a zero sum), each part strictly within one unit of it; an empty weight list returns an empty split |
| `Allocation.RoundShares` | backend/app/core/money.py:191-206 | rounding toward zero and handing out the residual in sorted remainder order gives the largest-remainder split of the shares |
| `Allocation.HandOutUnits` | backend/app/core/money.py:203-206 | the loop gives one step to each of the first |units| indices of the order and to no other |
| `Allocation.HalfUpIsNearest` | backend/app/core/money.py:148-151 | half-up rounding gives a nearest whole unit, ties away from zero |
| `ScaledStorage.RoundTrip` | backend/app/core/money.py:79-96 | what is read back is the in-scale value nearest the one written, ties away from zero, equal to it exactly when it was within scale |
| `ScaledStorage.OrderAndAddition` | backend/app/core/money.py:79-96 | storage preserves order and addition of in-scale values |
| `ScaledStorage.SumsAgree` | backend/app/core/money.py:8-10 | summing stored integers equals storing the decimal sum |
| `ScaledStorage.EnginesAgreeOnBalance` | backend/alembic/versions/0009_finance_journal.py:84-91 | the balance guard gives the same verdict on scaled integers as on decimals |
| `ScaledStorage.MoneyFitsInt64` | backend/app/core/money.py:69-73 | every NUMERIC(18,6) value fits a 64-bit integer |
| `ScaledStorage.RateFitsIffSmall` | backend/app/core/money.py:117-123 | a NUMERIC(20,10) rate fits exactly between -922337203.6854775808 and 922337203.6854775807 |
| `ScaledStorage.LargeRateOverflows` | backend/app/core/money.py:69-73 | a legal rate of one thousand million does not fit |
| `Conditional.ValidatorIsExact` | backend/app/core/conditional.py:93-107 | whatever the filter, equal (count, newest stamp) holds if and only if the filtered collections are identical, for any two tables in which no three rows hide a change |
| `Conditional.HiddenIffRowsHide` | backend/app/core/conditional.py:8-19 | for any two tables and no assumption on stamps: some filter sees a change the validator hides if and only if one row replaced another with the same stamp, or did so beside a third row with equal newest stamps, or a row was restamped without moving the newest stamp of a pair |
| `Conditional.HistoryValidator` | backend/app/core/conditional.py:93-107 | so it is over every history whose writes are stamped after the rows they found, ties among the writes included |
| `Conditional.EqualStampsHideAChange` | backend/app/core/conditional.py:16-19 | a history that deletes a row and inserts another with the same stamp: the validator stays, the collection does not |
| `Conditional.TagInjective` | backend/app/core/conditional.py:100-107 | equal tags carry equal counts, stamps, extra components, tenant marks and request fingerprints |
| `Conditional.TagReadsBack` | backend/app/core/conditional.py:100-107 | splitting the tag at its hyphens reads back count, newest stamp, extra components, tenant mark and request fingerprint in that order |
| `Conditional.HeaderCheckExact` | backend/app/core/conditional.py:110-134 | for any header text the check passes exactly when some stripped entry is a star, the current tag, or the current tag without its weak marker |
| `Conditional.StripExact` | backend/app/core/conditional.py:130 | stripping removes whitespace of every kind from both ends and nothing else |
| `Conditional.ListedHeader` | backend/app/core/conditional.py:127-130 | the entries read from a composed header are the ones it was composed of, in order, whatever whitespace of any kind surrounds each and however many empty entries lie between |
| `Conditional.NotModifiedIsSound` | backend/app/core/conditional.py:120-157 | for a header that echoes held tags in either form, any order and spacing, the check passes if and only if one of them was issued for this very page request over a collection identical to the present one, unless three rows hide a change |
| `Conditional.SoundIffNothingHidden` | backend/app/core/conditional.py:8-19 | 304s for a held tag are sound for every filter if and only if no three rows of the two tables hide a change |
| `Conditional.ConditionalResponse` | backend/app/core/conditional.py:137-157 | for an issued tag no body goes out exactly when the header lists a star or that tag in either form; otherwise the page does; both carry the tag |
| `Journal.SafeIffDisciplined` | backend/alembic/versions/0009_finance_journal.py:226-385 | a write the triggers and constraints permit keeps the books conserved and settled entries frozen if and only if entries are inserted as DRAFT, DRAFT leaves only by the posting transaction, REVERSED stays, and lines are added or edited unposted under DRAFT entries |
| `Journal.JournalConservation` | backend/alembic/versions/0009_finance_journal.py:226-385 | over every run of such writes each settled entry's debits equal its credits and are positive, its lines never change, vanish or grow in number, POSTED leaves only to REVERSED, and all posted debits less all posted credits are zero |
| `Journal.PostedUpdateExactly` | backend/alembic/versions/0009_finance_journal.py:118-315 | exactly which UPDATEs of a POSTED header pass, under three-valued logic and with every foreign key, the unique document and the unique number: number and period are protected only when both sides are non-NULL |
| `Journal.PostExactly` | backend/alembic/versions/0009_finance_journal.py:77-91 | the posting transaction passes if and only if the entry is DRAFT, an open period of its tenant covers the posting date, its debits equal its credits and are positive, and every key holds |
| `Journal.UnpostedUpdateExactly` | backend/alembic/versions/0009_finance_journal.py:226-290 | an UPDATE of a header that is not POSTED passes if and only if its keys hold and, when it sets POSTED, the same period and balance conditions do |
| `Journal.EntryInsertExactly` | backend/alembic/versions/0009_finance_journal.py:226-266 | an inserted header passes if and only if its id is new, its keys hold and, when POSTED, an open period of its tenant covers its date; its lines are not examined |
| `Journal.EntryDeleteExactly` | backend/alembic/versions/0009_finance_journal.py:316-344 | a header can be deleted if and only if it is DRAFT and nothing refers to it |
| `Journal.LineWritesExactly` | backend/alembic/versions/0009_finance_journal.py:188-385 | lines pass on insert whenever they fit their entry, on update or delete if and only if they are not marked posted (and the new line fits) |
| `Journal.NullSlipsPastTheGuard` | backend/alembic/versions/0009_finance_journal.py:297-302 | a reversal by any entry of the tenant that erases the number and period passes triggers and constraints |
| `Journal.PostingNeedsOpenPeriod` | backend/alembic/versions/0009_finance_journal.py:77-82 | over every run of permitted writes with the calendar changing at will, an entry POSTED at the end was the same POSTED row at the start, or at some moment of the run a period with status open, the entry's tenant, and start and end around its posting date existed |
| `Journal.BalanceVerdictIsDecimal` | backend/alembic/versions/0009_finance_journal.py:84-91 | the guard over the stored integers of an entry's lines lets it through exactly when the decimal amounts they stand for have equal positive sums |
| `Journal.Ledger.Execute` | backend/alembic/versions/0009_finance_journal.py:226-385 | a write is accepted exactly when constraints and triggers let it through, and otherwise changes nothing; an accepted one changes exactly the row it names (posting also marks that entry's lines) and is safe exactly when disciplined |

## Left out

- Forgotten capture (`idempotency.py:368-383`): a handler that returns without capturing commits a document with no replay record; the protocol model assumes handlers capture.
- Missing Idempotency-Key header and missing tenant context (`idempotency.py:315-330`): single-branch refusals before any row is touched.
- Hashing and response serialisation: hashes and responses are opaque values.
- Cancellation (`asyncio.CancelledError` is not caught by `run_in_uow`): only ordinary exceptions are modelled; a killed process is a crash action.
- Ambiguous commits, where the database commits but the client sees an error.
- The concurrency cap `MAX_CONCURRENT_JOBS`, the live-task set and the handler registry of `jobs.py`: they only restrict which of the modelled interleavings occur.
- Result, error text, `started_at` and `finished_at` of a job row: no step reads them.
- Key purging and job updates of one sweep commit together in the code; the model takes them as separate steps, which allows more interleavings.
- `Events`: handlers are deterministic functions of the working rows and the event; nested units of work and subscription during a drain are not modelled.
- `ensure_sequence`: its counter insert is the `Insert` action of a transaction that is not inside a claim; the configuration row itself is a parameter.
- The 64-bit overflow of SQLite's SUM over very many maximal amounts, and Decimal's 28-digit division context in `allocate`: arithmetic is exact.
- The float step in the tag's microsecond component: stamps are taken as already in microseconds.
- Conditional.NotModifiedIsSound: speaks of headers that list held tags only, so not of the `*` form, which matches any representation by definition (`HeaderCheckExact` covers it), and not of collections with extra aggregate components, whose time input no write touches (`TagInjective` covers the components).
- `register_document`, `set_document_status` and `link_documents`: one-row inserts and updates under declared constraints; projected columns of chain nodes and the link type of chain edges.
- Line and header columns the guards never mention (accounts, dimensions, descriptions, line numbers, the denormalised posting date and period of lines) with their own keys, and the order in which triggers fire. Constraints are checked on the state each write leaves.
- `SetPeriods` and `SetDocuments` let the calendar and the document registry change arbitrarily; the guards of those tables only permit less.
- Tenancy filters, authentication, routers, audit, custom fields, the frontend, seeds and the business modules.
