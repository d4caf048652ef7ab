# Capacity metering, paid operations and their schema code: a Dafny model

This project models the parts of the repository that decide who may spend, what is charged, how revenue is split, and how
the schema behind it is brought up, and proves properties of them over every input, every run or every interleaving.

| module | models |
|---|---|
| `Authorizations` | rows of authorizations, draws and settlements, and the queries over them |
| `MeteringProtocol`, `MeteringRuns`, `MeteringSamples` | any number of gateway workers and revocation runs, interleaved at the grain of database statements |
| `CapacityGate`, `ParityRecorder` | the prepaid-then-authorization waterfall, the read-only preflight, dual mode and its recorder |
| `Revocation` | the operator's revocation tool |
| `OpsTables`, `EpochFinalization`, `OperationsEngine`, `EngineRuns` | paid operations, epochs, the revenue split, the ledger, and whole runs of them |
| `DigitStrings`, `Money`, `Allocation` | digit strings, decimal text in and out, and the residual allocator |
| `SqlLiterals`, `DodoRail` | SQL literal quoting and scanning, and the boot-time constraint |
| `Migrations` | the forward-only migration runner |
| `Scheduler`, `AutoScaler` | the reconciler's single-flight loop, and weighted node selection |

Code that only computes is modelled by functions. Code that updates fields or tables step by step is a class or a method with
loops, proved equal to a function of the old state; the theorems are about that function and about runs of it. Errors are values
(`Result`, `Option`, a verdict), never preconditions. Clocks, random numbers, database faults and collaborators are parameters, so
every statement is for all of them. `Engine.Execute` and the event methods of `Loop` and `RevocationTool` are proved equal to the functions
that the theorems below are about.

## Where the code does less than its comments say

Each of these is kept as the code has it, shown on a concrete input, and given the exact condition under which the promise holds.

- Revocation "preserves consumed_amount" (`tools/ops/revoke-authorization.ts:11`): the repository's save writes back the amount it
  loaded, compares only the version, and a draw does not move the version, so a draw that commits between load and save is written
  over. Input: `SaveWritesOverDraw`. Condition: `NeverDropsExactly`, `FreshConservation`.
- An authorization "may not be revoked out from under an in-flight draw" (`tools/ops/revoke-authorization.ts:93-94`): the preflight and
  the save are separate, and a draw may be committed between them. Input: `SaveWritesOverDraw`. Condition: `RevokedUnderDrawExactly`.
- "Refuse the whole run rather than partially revoke" (`tools/ops/revoke-authorization.ts:149`): the loop stops at the first blocked
  target with the earlier ones already revoked. Input: `StopsHalfway`. Condition: `StoppedRunUntouchedExactly`.
- "One request, one draw" (`apps/api/src/capacity/capacity_enforcement.js:290-292`): a repeated id debits again and records nothing.
  Input: `RepeatedKeyDebitsTwice`. Condition: `ReusedKeysExactly`.
- The preflight "mirrors enforceCapacity's decision" (`apps/api/src/capacity/capacity_enforcement.js:429`): it sums capacity over rows
  while a draw needs one row, and it does not test for a terminal prepaid refusal. Inputs: `SplitCapacityPassesPreflight`,
  `TerminalDeclinePassesPreflight`. Condition: `PreflightGapExact`.
- Each part of an allocation is said to be a floor (`libs/kernel/src/money.ts:264`); it is truncated toward zero. Input:
  `HalvesTruncate`. Condition: `FloorExactly`. And with ratios near the scale unit the first part can take the wrong sign. Input:
  `TinyRatiosTurnNegative`. Condition: `NoOppositeSignExactly`.
- "Already allows dodo" (`apps/api/src/db/dodo_rail_schema.js:78`) is a text search that a value such as `x'dodo'y` satisfies. Input:
  `QuotedDodoFoolsTheSearch`. Condition: `FirstSuccessSettles`. The function is documented never to throw, but a failing connect is
  outside its error handling: it throws exactly on that fault (`DodoSchema.EnsureDodoRailSchema`).
- Migrations are documented as sorted by number (`database/runner.ts:72`); they are sorted as text. Input: `TenthBeforeNinth`.
  Condition: `EqualWidthsExactly`, `DiscoveredInNumberOrder`.
- Two managed nodes in one epoch write the reserve's key twice and finalization rolls back. This rests on the table of
  `apps/api/server.js:92-102`, keyed by (epoch, role, payee); `apps/api/src/routes/claims_route.mjs:94` would create it without that
  key if it ran first. Input: `TwoManagedCannotClose`. Condition: `ClosesExactly`.
- "A throw here never wedges the loop" (`workers/reconciler/src/scheduler.ts:22`): it does if the error's own report throws. Input:
  `UnreportedErrorWedges`. Condition: `OneAtATime`.
- Two of the three load bands keep the weight at one or more; the idle band does not. Input: `HalfWeightRises`. Condition:
  `WeightExact`.
- The balance check skips an empty client id, which the ledger then overdraws. Input: `EmptyClientOverdraws`. Condition:
  `OverdrawsExactly`.

## Model

| member | source | states |
|---|---|---|
| `MeteringProtocol.StepKeeps` | apps/api/src/capacity/capacity_enforcement.js:248-305 | every event of every worker and revoker keeps the invariant: rows within cap, exclusive locks, lock holders' rows still drawable, draws paired with settlements, and the accounting identity |
| `MeteringProtocol.RunKeeps` | apps/api/src/capacity/capacity_enforcement.js:248-305 | the invariant holds after every possible run |
| `MeteringRuns.InitialHolds` | apps/api/src/capacity/capacity_enforcement.js:248-305 | the invariant, and the separation of keys, hold before any process starts |
| `MeteringProtocol.BeginsExactly` | apps/api/src/capacity/capacity_enforcement.js:253-266 | a call goes on past its entitlement check exactly when some row of its principal is in force, and changes no table |
| `MeteringProtocol.LocksLeast` | apps/api/src/capacity/capacity_enforcement.js:271-283 | the lock goes to the soonest-expiring row, ties by id, that can bear the cost and is neither held nor busy; the call ends exactly when there is none |
| `MeteringRuns.NeverOverdrawn` | apps/api/src/capacity/capacity_enforcement.js:267-305 | in every interleaving 0 <= consumed <= cap for every authorization, and every draw has exactly one settlement |
| `MeteringRuns.CommitsOnDrawableRow` | apps/api/src/capacity/capacity_enforcement.js:255-305 | a commit lands only on a row of the principal that is active, in USDC, in window for the captured time and within its cap after the cost, however stale the entitlement check; debit, draw (principal, row, funding source, cost) and settlement land together, the latter two unless the key is there already |
| `MeteringProtocol.WorkersProceed` | apps/api/src/capacity/capacity_enforcement.js:248-305 | from every reachable state each worker can take its next step at once, except that recording waits for an unfinished call with the same key, and any begun call can be abandoned |
| `MeteringProtocol.RevokersProceed` | tools/ops/revoke-authorization.ts:123-170 | from every reachable state each revoker can proceed, except that a save waits exactly while a worker holds the row |
| `MeteringProtocol.AbandonedLeavesNothing` | apps/api/src/capacity/capacity_enforcement.js:226-229 | a rolled-back call, or one without a capacity account or a cost, leaves every table as it was and its row unlocked |
| `MeteringRuns.Conservation` | apps/api/src/capacity/capacity_enforcement.js:221-305 | between any two moments of any run, also for authorizations granted meanwhile, the rise in consumed equals the rise in recorded draws plus repeated-key debits minus what saves wrote over |
| `MeteringRuns.RunKeepsIdentity` | apps/api/src/capacity/capacity_enforcement.js:271-286 | no run changes a row's id or cap |
| `MeteringRuns.FreshRun` | apps/api/src/capacity/capacity_enforcement.js:288-298 | with fresh request ids no debit is ever repeated, and the keys in use stay apart |
| `MeteringRuns.FreshConservation` | apps/api/src/capacity/capacity_enforcement.js:203-246 | from any reachable moment, with fresh request ids the rise in consumed is exactly the sum of new draws, if and only if no save is stale |
| `MeteringRuns.RepeatsExactly` | apps/api/src/capacity/capacity_enforcement.js:230-246 | one step counts a repeated debit of a row if and only if it commits a call whose key already has its draw |
| `MeteringRuns.NoRepeatsExactly` | apps/api/src/capacity/capacity_enforcement.js:288-298 | over every run, no commit on a row repeats a key if and only if no repeated debit was counted on it |
| `MeteringRuns.ReusedKeysExactly` | apps/api/src/capacity/capacity_enforcement.js:221-246 | from any reachable moment, with any ids and no stale save, the rise in consumed is at least the new draws, and equals them if and only if no commit repeats a key |
| `MeteringRuns.DropsExactlyOnStaleSave` | services/financial/src/infrastructure/repositories/postgres/postgres-authorization-repository.ts:73-95 | one step lowers committed consumption if and only if it is a save of a row that has consumed since it was loaded |
| `MeteringRuns.LostNeverShrinks` | services/financial/src/infrastructure/repositories/postgres/postgres-authorization-repository.ts:82-87 | what saves wrote over only grows, and consumed plus written-over never drops |
| `MeteringRuns.NeverDropsExactly` | tools/ops/revoke-authorization.ts:10-14 | over every run consumption never drops, if and only if every save finds the amount it loaded, if and only if nothing was written over |
| `MeteringRuns.LiveExactly` | apps/api/src/capacity/capacity_enforcement.js:203-246 | over every run, a draw is live at the end if and only if it was and was never rejected, or was committed or taken out of rejection during the run and not rejected after |
| `MeteringRuns.RevokedUnderDrawExactly` | tools/ops/revoke-authorization.ts:92-108 | whatever happens between a passed preflight and the save that goes through, the row is revoked under a live draw if and only if in between a draw on it was committed, or taken out of rejection, and not rejected again |
| `MeteringSamples.SaveWritesOverDraw` | tools/ops/revoke-authorization.ts:132-168 | a concrete run after which a row is revoked and shows 0 consumed with a draw of 30 on it recorded and live |
| `MeteringSamples.RepeatedKeyDebitsTwice` | apps/api/src/capacity/capacity_enforcement.js:230-246 | two calls with one request id consume 60 and record one draw of 30 |
| `Authorizations.Select` | apps/api/src/capacity/capacity_enforcement.js:274-283 | the selected row is unlocked and drawable, no candidate precedes it in (valid_before, id) order, and none is selected only when there is none |
| `Authorizations.EntitlementExact` | apps/api/src/capacity/capacity_enforcement.js:85-116 | each of the four answers holds exactly under its own cause, in terms of the rows' columns, over all row sets |
| `Authorizations.ColumnsExact` | apps/api/src/capacity/capacity_enforcement.js:274-279 | which columns make a row count for a call, and make it able to bear the cost |
| `Authorizations.AvailableCoversRow` | apps/api/src/capacity/capacity_enforcement.js:138-146 | the summed read is at least what any one usable row has left |
| `Authorizations.AvailableOfOne` | apps/api/src/capacity/capacity_enforcement.js:138-146 | with at most one usable row the sum is that row's remainder |
| `Authorizations.SumWithoutRowIsSplit` | apps/api/src/capacity/capacity_enforcement.js:134-147 | if the sum suffices and no row does, at least two usable rows are each below the cost |
| `Authorizations.AddKeepsPairs` | apps/api/src/capacity/capacity_enforcement.js:221-246 | the two conflict-ignoring inserts keep draws and settlements in one-to-one correspondence, for new and repeated keys |
| `CapacityGate.DrawExact` | apps/api/src/capacity/capacity_enforcement.js:248-329 | a draw is served, throws, or is refused, each exactly under its own condition on the rows' columns, the account and the cost; insufficient capacity exactly when a row is in force and none can bear the cost |
| `CapacityGate.DrawsOnLeast` | apps/api/src/capacity/capacity_enforcement.js:271-298 | the row drawn on has the soonest expiry, ties by id, among all that can bear the cost; only it changes, by the cost, the remainder is reported, and the draw and settlement are recorded for it |
| `CapacityGate.DrawKeepsSound` | apps/api/src/capacity/capacity_enforcement.js:267-305 | a draw keeps the tables sound, and a call that is not served (missing account included) leaves them as they were |
| `CapacityGate.OneLayerAtMost` | apps/api/src/capacity/capacity_enforcement.js:359-400 | if a declined charge changed nothing, a call charges prepaid, or draws on one authorization, or changes nothing at all |
| `CapacityGate.PreflightSound` | apps/api/src/capacity/capacity_enforcement.js:438-447 | what enforcement serves the preflight on the same state allows, except exactly when prepaid charges what its own precheck declines and the authorization layer refuses |
| `CapacityGate.PreflightSameDenial` | apps/api/src/capacity/capacity_enforcement.js:438-447 | after a preflight refusal, enforcement serves exactly what prepaid charges; otherwise it refuses, with the same denial if and only if the two prepaid codes call for it, terminal declines included |
| `CapacityGate.PreflightGapExact` | apps/api/src/capacity/capacity_enforcement.js:359-400 | exactly when the preflight allows what enforcement then does not serve, for any prepaid layer |
| `CapacityGate.PreflightGapIsSplit` | apps/api/src/capacity/capacity_enforcement.js:134-147 | a gap that is not a terminal decline, after a prepaid precheck refusal, means capacity split over at least two rows, each below the cost |
| `CapacityGate.PreflightOffNewPath` | apps/api/src/capacity/capacity_enforcement.js:438-441 | on the legacy and dual paths the preflight is the prepaid precheck with its code and terminal flag, and equals the verdict enforcement serves where precheck and charge agree |
| `CapacityGate.PreflightOnNewPath` | apps/api/src/capacity/capacity_enforcement.js:441-446 | on the new path it serves exactly what the precheck or the summed capacity allows; a refusal is prepaid's own for a key holder out of credits, otherwise the authorization layer's |
| `CapacityGate.SplitCapacityPassesPreflight` | apps/api/src/capacity/capacity_enforcement.js:134-147 | two rows with 20 left each pass the preflight at cost 30, and the call is refused |
| `CapacityGate.TerminalDeclinePassesPreflight` | apps/api/src/capacity/capacity_enforcement.js:374-374 | a paused key without credits and with a funded row passes the preflight, and the call is refused terminally |
| `CapacityGate.DualServesLegacy` | apps/api/src/capacity/capacity_enforcement.js:402-426 | in every run of mixed paths with arbitrary evaluation errors, verdicts and stored state are those of the run with dual off; every dual call is counted, as an agreement exactly where the legacy verdict and the evaluation along the legacy run agree, and under a label otherwise |
| `CapacityGate.LabelsExact` | apps/api/src/capacity/capacity_enforcement.js:408-420 | the label a dual call's disagreement is counted under, spelled out for every charge, denial and evaluation error; agreements count under none |
| `CapacityGate.Gate.RecordDraw` | apps/api/src/capacity/capacity_enforcement.js:221-246 | inserts both rows or neither table changes; fails exactly without an account or with a zero cost |
| `CapacityGate.Gate.EnforceNewPath` | apps/api/src/capacity/capacity_enforcement.js:248-329 | debit, insert and rollback in place refine the draw specified by `DrawOnce` |
| `CapacityGate.Gate.EnforceCapacity` | apps/api/src/capacity/capacity_enforcement.js:345-426 | verdict, stored state and recorder are those of the path's specification whether or not the dual evaluation fails, and the recorder stays consistent |
| `ParityRecorder.AddSample` | apps/api/src/capacity/parity_recorder.js:16-25 | below 2000 samples the latency is appended; at 2000 it replaces the one at the drawn index, if that is below 2000, and no other |
| `ParityRecorder.TotalBump` | apps/api/src/capacity/parity_recorder.js:64-67 | counting one more under any label raises the sum of counts by one |
| `ParityRecorder.ObserveKeeps` | apps/api/src/capacity/parity_recorder.js:55-69 | an observation keeps the log consistent and raises the sum of the labels' counts exactly when it is a disagreement |
| `ParityRecorder.Recorder.Record` | apps/api/src/capacity/parity_recorder.js:55-69 | keeps evaluated = agreements + disagreements = agreements + sum of per-label counts, and both samples full up to the bound |
| `ParityRecorder.SortedCopyCount` | apps/api/src/capacity/parity_recorder.js:27-32 | the sorted copy has as many values below any bound as the sample: a rearrangement |
| `ParityRecorder.PercentileHasRank` | apps/api/src/capacity/parity_recorder.js:27-32 | the p-th percentile is a sample with at most p percent of the samples below it and more than p percent not above it; from 100 on it is the largest |
| `ParityRecorder.CountBelowIsCard` | apps/api/src/capacity/parity_recorder.js:27-32 | the count of samples below a value is the size of the set of their positions |
| `ParityRecorder.PercentileMonotone` | apps/api/src/capacity/parity_recorder.js:71-76 | a higher percentile is never below a lower one, p50 <= p99 in particular |
| `Revocation.ResolveExact` | tools/ops/revoke-authorization.ts:66-90 | the targets are exactly the rows with a given id, or without ids those whose signer matches, each once, in (valid_before, id) order |
| `Revocation.TurnIs` | tools/ops/revoke-authorization.ts:123-170 | although earlier turns changed rows, each turn handles its target from the row as it was before the run: it stops at the first blocked target with the run's outcome settled, or adds the entry due |
| `Revocation.RevocationTool.RevokeAuthorizations` | tools/ops/revoke-authorization.ts:116-173 | for ids, or the signer without ids, or neither: the loop over changing rows reports and leaves what is computed from the rows before the run |
| `Revocation.DryRunPredicts` | tools/ops/revoke-authorization.ts:153-159 | a dry run changes nothing and predicts the confirmed run's stop, or its actions in order |
| `Revocation.OnlyTargetsChange` | tools/ops/revoke-authorization.ts:66-173 | a confirmed run flips only active rows without a live draw and changes nothing else of them; with ids only rows with such an id, and all active ones of them if it finishes, whatever the signer; without ids the same by signer; with neither it refuses and changes nothing |
| `Revocation.ReportExact` | tools/ops/revoke-authorization.ts:123-172 | a finished run reports each target once, in order, with its own row's id, signer, amounts and state, and whether it was revoked; a stop names an active target with a live draw |
| `Revocation.StoppedRunUntouchedExactly` | tools/ops/revoke-authorization.ts:147-151 | a run leaves the table untouched if and only if no target before the stop was active |
| `Revocation.StopsHalfway` | tools/ops/revoke-authorization.ts:147-151 | two rows of which the run revokes one and then stops on the other |
| `Revocation.RerunRevokesNothing` | tools/ops/revoke-authorization.ts:110-115 | repeating a confirmed run changes nothing and reports only already-revoked rows, or the same stop |
| `OpsTables.InitEpochExact` | apps/api/src/core/operations_engine.js:396-426 | whichever insert path is taken, the returned epoch is the only open one and no other epoch is touched; what the new epoch is, with the hour's slot exactly when that is free; and exactly when it fails |
| `OpsTables.TransferEffect` | apps/api/src/core/operations_engine.js:289-303 | a two-line posting balances and moves the amount between exactly its two accounts |
| `OperationsEngine.Engine.OpenEpoch` | apps/api/src/core/operations_engine.js:396-426 | fast path, slot insert, recheck and last resort refine `InitEpoch` |
| `OperationsEngine.Engine.InsertNodeRows` | apps/api/src/core/operations_engine.js:345-359 | the node loop inserts exactly the nodes' rows after the head rows, or the transaction fails |
| `OperationsEngine.Engine.CloseTransaction` | apps/api/src/core/operations_engine.js:326-361 | the closing transaction commits all of its rows and the status, or restores both tables |
| `OperationsEngine.Engine.Finalize` | apps/api/src/core/operations_engine.js:323-377 | close, reward posting and reopening refine `FinalizeEpoch` |
| `EpochFinalization.EarningsConserve` | apps/api/src/core/operations_engine.js:331-360 | earnings are the whole revenue when total uptime is positive, half of it when it is zero, nothing without revenue; owed plus kept is all of it |
| `EpochFinalization.EarningsShareOut` | apps/api/src/core/operations_engine.js:332-358 | who gets what: the platform 0.30 of revenue, distribution 0.20 in one pool or 0.12 and 0.08 in two, the reserve a tenth of the managed nodes' part and each wallet the rest, in proportion to uptime |
| `EpochFinalization.OwedExactly` | apps/api/src/core/operations_engine.js:367-371 | what is owed is 0.70 of revenue less the reserve when some node was up, else 0.20 |
| `EpochFinalization.SharesProportional` | apps/api/src/core/operations_engine.js:346-349 | the shares' sum times the total uptime is the nodes' uptime times the pool |
| `EpochFinalization.ShareExact` | apps/api/src/core/operations_engine.js:349-349 | a share is its uptime's proportion of the pool, positive exactly where uptime is |
| `EpochFinalization.OperatorPaid` | apps/api/src/core/operations_engine.js:348-358 | every node that was up has an operator row with its share, less a tenth if managed |
| `EpochFinalization.ClosesExactly` | apps/api/server.js:92-102 | for every revenue, node list and fault, an epoch's inserts go through if and only if none faults and there is no revenue, no uptime, or no two nodes that are both managed or were both up under one wallet |
| `EpochFinalization.NodeKeysExactly` | apps/api/src/core/operations_engine.js:348-358 | the nodes' rows have distinct keys if and only if no two nodes are both managed or were both up under one wallet |
| `EngineRuns.OpRecords` | apps/api/src/core/operations_engine.js:272-283 | an accepted operation appends one event with a new key to an epoch that is then open; a refused one writes no event and no posting |
| `EngineRuns.OpPosts` | apps/api/src/core/operations_engine.js:260-303 | an operation posts nothing, or a price a named client could afford |
| `EngineRuns.ChecksExact` | apps/api/src/core/operations_engine.js:203-270 | each refusal exactly under its own condition: counts as sizes of sets of stored events of the last 60 seconds, limits with their defaults 60 and 120, and having exactly the charge is enough |
| `EngineRuns.AcceptsExactly` | apps/api/src/core/operations_engine.js:200-303 | exactly when an operation is accepted; then the amount recorded and posted is the amount asked for if positive, else the rule's base, multiplied exactly when surge is on and more than the threshold of events fell in the last minute, else the listed price |
| `EngineRuns.StepKeeps` | apps/api/src/core/operations_engine.js:200-426 | every operation, close, opening and deposit keeps the run invariant |
| `EngineRuns.RunKeeps` | apps/api/src/core/operations_engine.js:200-426 | over every run, under settings that may change at every step: at most one open epoch, one event per idempotency key, balanced postings, no named client overdrawn although ledger writes may fail, and every closed epoch paid out its revenue or half of it |
| `EngineRuns.FromEmpty` | apps/api/src/core/operations_engine.js:200-426 | so for every run from empty tables |
| `EngineRuns.ClosedIsFrozen` | apps/api/src/core/operations_engine.js:323-330 | a closed epoch's status, revenue and earnings never change in any run |
| `EngineRuns.FinalizeAllOrNothing` | apps/api/src/core/operations_engine.js:323-377 | decided by the tables, nodes and faults before the call: a close either changes nothing and the epoch has no earnings, or closes it, shares its revenue out, moves exactly what is owed from treasury to payables and no other account, and reports success exactly when an epoch is open again |
| `EngineRuns.FinalizesCurrent` | apps/api/src/core/operations_engine.js:323-328 | without an id the current epoch is finalized, and without either the call throws |
| `EngineRuns.TwoManagedCannotClose` | apps/api/src/core/operations_engine.js:347-361 | two managed nodes that were up: finalizing throws and changes nothing |
| `EngineRuns.ReplayChangesNothing` | apps/api/src/core/operations_engine.js:216-218 | a replay after any run and under any settings changes nothing; it is answered with the first event's id, or turned away by safe mode, throttling or a disabled operation |
| `EngineRuns.OpTakes` | apps/api/src/core/operations_engine.js:260-303 | an operation lowers a client's available balance by the charge if it is the client's own, accepted and posted, and otherwise not at all |
| `EngineRuns.OverdrawsExactly` | apps/api/src/core/operations_engine.js:260-303 | an operation overdraws a client that was not overdrawn if and only if it is the empty client's own, is recorded and posted, and its price exceeds what is there |
| `EngineRuns.EmptyClientOverdraws` | apps/api/src/core/operations_engine.js:260-270 | one operation takes the empty client's balance below zero |
| `EngineRuns.WindowBound` | apps/api/src/core/operations_engine.js:223-236 | in every run, with pricing that may change at every step, the set of one client's, or one node's, events in any 60 seconds is no larger than the largest limit ever configured, zero standing for 60 and 120 |
| `Money.MatchesGrammar` | libs/kernel/src/money.ts:59-64 | the recognizer accepts exactly the texts the grammar generates |
| `Money.ParseRejectsExactly` | libs/kernel/src/money.ts:105-108 | a text is refused as malformed if and only if its trimmed form is not generated by the grammar |
| `Money.TrimExact` | libs/kernel/src/money.ts:105-105 | trimming drops white space at both ends and nothing else, and leaves none there |
| `Money.ParseExact` | libs/kernel/src/money.ts:97-144 | an accepted text is worth the number it denotes times ten to the decimals; too many fraction digits are refused with both counts |
| `Money.RoundTrip` | libs/kernel/src/money.ts:150-168 | parsing the printed amount returns it, for every amount and every currency the constructor of libs/kernel/src/currency.ts:32-35 lets exist |
| `Money.CanonicalUnique` | libs/kernel/src/money.ts:156-168 | two canonical digit strings of one value are the same string |
| `Money.ReprintExact` | libs/kernel/src/money.ts:97-168 | reprinting an accepted text returns it if and only if it has all fraction digits and is not a negative zero |
| `Allocation.FirstNegative` | libs/kernel/src/money.ts:277-286 | finds the first negative ratio, or none |
| `Allocation.AllocateScaled` | libs/kernel/src/money.ts:298-318 | the summing loop and the overwrite of the first part give the specified parts |
| `Allocation.Allocate` | libs/kernel/src/money.ts:270-319 | each error exactly under its condition, with the first bad index; otherwise the specified parts |
| `Allocation.Scaled` | libs/kernel/src/money.ts:293-301 | a scaled ratio is the nearest integer to the ratio times 10^18, halves upward |
| `Allocation.SumsExactly` | libs/kernel/src/money.ts:261-268 | the parts add up to the amount, for every amount, ratios and total |
| `Allocation.OthersTruncated` | libs/kernel/src/money.ts:302-306 | every part but the first is its exact share truncated toward zero |
| `Allocation.FloorExactly` | libs/kernel/src/money.ts:264-265 | a part after the first is its share rounded down if and only if the amount is not negative or the share is whole |
| `Allocation.HalvesTruncate` | libs/kernel/src/money.ts:302-306 | with ratios 1 and 1 the second half of -3 is -1, not -2 |
| `Allocation.ResidualSmall` | libs/kernel/src/money.ts:308-316 | when the scaled ratios sum to the scaled total, the residual has the amount's sign and is below the number of parts |
| `Allocation.NoOppositeSignExactly` | libs/kernel/src/money.ts:293-316 | no part of any amount takes the opposite sign if and only if the scaled ratios after the first fit in the scaled total |
| `Allocation.NegationCommutes` | libs/kernel/src/money.ts:298-306 | allocating the negated amount negates every part |
| `Allocation.TinyRatiosTurnNegative` | libs/kernel/src/money.ts:293-301 | four equal tiny ratios for which the first part of 2 is -1 |
| `SqlLiterals.ParseAllowedValues` | apps/api/src/db/dodo_rail_schema.js:33-40 | the scanning loop returns every literal of the text, left to right |
| `SqlLiterals.ClosesExactly` | apps/api/src/db/dodo_rail_schema.js:36-38 | a literal closes at the last quote before which only other characters and doubled quotes stand, and not at all exactly when there is none |
| `SqlLiterals.ScanRender` | apps/api/src/db/dodo_rail_schema.js:33-45 | scanning quoted values between quote-free text returns the list, empty values and values of quotes included |
| `SqlLiterals.SearchRender` | apps/api/src/db/dodo_rail_schema.js:78-78 | the text search succeeds if and only if some listed value has the piece dodo between quotes or ends |
| `DodoRail.DodoSchema.EnsureDodoRailSchema` | apps/api/src/db/dodo_rail_schema.js:53-193 | wherever the database fails the constraint is unchanged and readiness false, except that a failing connect throws and leaves readiness as it was; on success the report is exact |
| `DodoRail.NeverDropsValue` | apps/api/src/db/dodo_rail_schema.js:86-105 | no sequence of boots and writes drops a listed or stored value |
| `DodoRail.FirstSuccessSettles` | apps/api/src/db/dodo_rail_schema.js:77-105 | after the first success nothing changes the constraint; it allows dodo if and only if it did before or no listed value looked like it |
| `DodoRail.RecreatedExactly` | apps/api/src/db/dodo_rail_schema.js:30-102 | a recreated constraint lists the five known sources, what rows hold and what was listed, each once, and nothing else |
| `DodoRail.RowsStayWithin` | apps/api/src/db/dodo_rail_schema.js:97-103 | after a recreation every row, old or later, satisfies the constraint |
| `DodoRail.QuotedDodoFoolsTheSearch` | apps/api/src/db/dodo_rail_schema.js:78-84 | a constraint the boot takes as done that refuses dodo |
| `Migrations.SortedNamesExact` | database/runner.ts:75-77 | a listing sorts to exactly its .sql names in strict text order |
| `Migrations.DiscoverExact` | database/runner.ts:74-92 | every file whose name ends in .sql once, in strict text order, with its content and checksum; or the error exactly when such a name does not start with a number and an underscore |
| `Migrations.TextIsNumeric` | database/runner.ts:71-77 | digit strings of one width compare as text as they compare as numbers |
| `Migrations.LongerSortsFirst` | database/runner.ts:75-83 | for all widths m < n: a migration numbered by m nines sorts after one numbered by a one and zeros, though its number is smaller |
| `Migrations.EqualWidthsExactly` | database/runner.ts:71-92 | text order agrees with number order for all names discovery accepts with numbers of two widths, if and only if the widths are equal |
| `Migrations.DiscoveredInNumberOrder` | database/runner.ts:71-92 | when all numbers of a directory have one width, discovery hands over its files in number order |
| `Migrations.TenthBeforeNinth` | database/runner.ts:74-92 | discovery hands over 10_b.sql before 9_a.sql |
| `Migrations.Runner.RunMigrations` | database/runner.ts:129-184 | the loop with one transaction per file refines the specified run, crashes included |
| `Migrations.Runner.Verify` | database/runner.ts:221-254 | the loop collects exactly the specified errors |
| `Migrations.LookupInPrefix` | database/runner.ts:200-211 | on a prefix table a file is reported applied exactly when it is in the prefix |
| `Migrations.MigrateExtends` | database/runner.ts:129-184 | one run from a prefix ends in a prefix at least as long, never reports a mismatch, and names the file that failed |
| `Migrations.AlwaysAPrefix` | database/runner.ts:125-184 | after any failed or crashed runs the table is a prefix of the files and the schema is the fold of exactly that prefix |
| `Migrations.Converges` | database/runner.ts:125-254 | a finishing run leaves what one clean run leaves; the next applies nothing, and verification is clean |
| `Migrations.VerifyExact` | database/runner.ts:237-250 | verification is clean if and only if every tracked migration is on disk with its checksum |
| `Migrations.VerifyReports` | database/runner.ts:237-247 | a tracked name is reported as not on disk exactly when no file has it, and as changed exactly when its file has another checksum |
| `Migrations.FinishedMeansUnchanged` | database/runner.ts:146-160 | a run that finishes found every already applied file unchanged |
| `Scheduler.OneAtATime` | workers/reconciler/src/scheduler.ts:26-59 | in every interleaving a tick and a pending timer never coexist; until stopped one of them exists if and only if no error report threw |
| `Scheduler.UnreportedErrorWedges` | workers/reconciler/src/scheduler.ts:31-41 | a first cycle whose error report throws leaves a running loop with no tick and no timer |
| `Scheduler.NoCycleAfterStop` | workers/reconciler/src/scheduler.ts:29-59 | no cycle starts after a stop |
| `AutoScaler.WeightExact` | apps/api/src/autonomous/auto_scaler.js:52-65 | weight never rises with load, and is at least one, if and only if the base weight is at least two thirds |
| `AutoScaler.WeightByLoad` | apps/api/src/autonomous/auto_scaler.js:52-65 | the weight by load against capacity: one and a half times the base up to 0.3, a fifth from 0.8, in between the base times the share left; whole, and at least one above 0.3 |
| `AutoScaler.HalfWeightRises` | apps/api/src/autonomous/auto_scaler.js:55-61 | base weight one half: weight 0 when idle, 1 when full |
| `AutoScaler.Draw` | apps/api/src/autonomous/auto_scaler.js:85-93 | the loop stops at the first cumulative weight that reaches the draw, else at the last node |
| `AutoScaler.SelectNode` | apps/api/src/autonomous/auto_scaler.js:67-94 | null exactly on an empty list; with base weights of at least two thirds, the selected node is the only one whose stretch holds the draw |
| `AutoScaler.StretchesPartition` | apps/api/src/autonomous/auto_scaler.js:82-93 | stretches as long as the weights partition the draws, so the fallback after the loop never selects |

## Left out

- OperationsEngine.claim: its payouts depend on code elsewhere that moves claimed rows to paid.
- Interleavings of executeOp and finalizeEpoch: their checks and writes are separate statements; the run theorems are for one operation at a time. The capacity protocol is modelled with interleaving.
- Floating point: prices, shares, weights and ratios are exact reals, and latencies whole microseconds; database column precision is not modelled.
- The prepaid layer and the principal lookup: arbitrary functions; only `OneLayerAtMost` assumes anything of them, that the declined charge at hand changed nothing.
- The inside of a revocation's save: it is one step, and a draw may skip any further set of rows as busy meanwhile.
- The settlement poller: its effect on a draw's state is an arbitrary step; confirmations are not modelled.
- Nonces, session keys, signatures, the append-only audit lines and command-line handling of the revocation tool.
- Null client and request ids, which SQL equality never matches; uptimes are not negative.
- Row ids are positions plus one: gaps a database sequence can leave are not modelled.
- The printing of constraints by Postgres: any quote-free, non-empty separator other than the word dodo is covered; escape-string printing of backslashes is not.
- Text order is by code unit, as JavaScript sorts; database collations are not modelled.
- The environment settings for cost and confirmations: the cost is any natural number, zero included, for which the draw insert fails.
- Additive columns and tables of the Dodo schema: they are one step that may fail.
- SLA records, webhooks, notifications, HTTP, dashboards, node load tracking and the default reputation.
