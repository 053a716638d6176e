# StormRelay: verified core

StormRelay receives operational events, deduplicates and correlates them into incidents, notifies
responders, and runs remediation runbooks whose steps survive crashes. This project is a Dafny model
of the parts where that durability is decided, with proofs over every run of each protocol.

One committed PostgreSQL transaction is one atomic step. Workers, crashes, clock readings and
operators choose the next step freely: each protocol is a function `Next` (or `Perform`) on values,
`Run` folds it over an arbitrary sequence, and a joint invariant is carried through every run. Where
the source updates rows or maps in place, a class does the same with loops and assignments, and each
of its methods is proved equal to the transition it stands for.

| files | component |
|---|---|
| Documents, Runbook, RunbookSafety, RunbookTheorems | runbook rows, the fourteen transactions on them, the joint invariant, safety over runs |
| RunbookProgress, RunbookRollback, RunbookKeys, RunbookEngine | termination and agreement of status, rollback, idempotency keys, requests actually sent |
| RunbookEffects, RunbookCompletion | what each transaction leaves in the rows and how long it holds; which executions can still complete |
| RunbookWitnesses | runs from a fresh start into each state that cannot be repaired |
| RunbookStore | the runbook transactions as methods of a store |
| Events, Correlation, Incidents, Pipeline, PipelineInvariant, Sessions | event keys and groups, incident lifecycle, deduplication, conservation, correlation as sessions |
| Notifications | whom a first delivery notifies, and moves and tokens that work once |
| EventStore | the event and incident transactions as methods of a store |
| Worker | fetch, process, acknowledge, dead-letter, with crashes and parallel redelivery |
| Outbox | leased notification deliveries with late reports |
| Replay, Limiter, Policy, Backoff | replay cache, token bucket, policy evaluator, retry delay |

## What the proofs say about the code

Holds for every run:

- Each lane of an execution has at most one started and unfinished step, nothing is handed out twice,
  a leased row is written only by its holder or by recovery after expiry, and after a cancel nothing
  is claimed again.
- An HTTP step without idempotency header is sent at most once, plus once for every forced retry of
  its ambiguous outcome, under any interleaving of lease expiry, crashes and late reports.
- Redeliveries, crashes between commit and acknowledgement, and parallel handlers leave no trace in
  incidents, links, outbox rows and tokens. Incidents of in-order events are exactly the maximal runs
  of events whose neighbouring gaps fit the correlation window.
- A first delivery puts exactly the channels that matching policies name, or the local mock, into the
  outbox, where they stay; a version and an acknowledgement token work once; a reported delivery is
  never claimed again.
- Whatever operators do, the number of step changes of an execution is bounded by a constant per row
  of both lanes plus five per committed retry.
- The bounded replay cache answers as an unbounded history would; the token bucket refuses a call
  exactly when some window would be exceeded.

Does not hold in general, with the exact condition proved; runs from a fresh start that fail it are
named beside it:

- The execution row is not fenced by the lease. A failure report on the last attempt keeps the
  execution's status in agreement with its steps if and only if it comes from the lease holder
  (`RunbookProgress.StaleFailureBreaksAgreement`, `RunbookWitnesses.StaleFailureHappens`).
- Finalisation counts both lanes, so a started rollback can end in `rolled_back` if and only if no
  cancel was requested and every forward step is settled, running or waiting; otherwise no command
  helps (`RunbookRollback.RollbackCanFinish`, `RunbookWitnesses.FailedRollbackNeverFinishes`).
  Recovery and retry leave `rolling_back` for good (`RunbookRollback.RollbackNeverResumes`).
- A step that completes while its execution is paused is not finalised; if it was the last one the
  execution stays running or paused until it is canceled (`RunbookProgress.PauseStrandsLastStep`,
  `RunbookWitnesses.PauseStrands`).
- A retried approval step reuses its decided approval row and then waits until it is canceled
  (`RunbookProgress.ReopenedApprovalStrands`, `RunbookWitnesses.ReopenedStrands`).
- An untouched execution can complete by itself if and only if no step failed or became ambiguous
  (`RunbookCompletion.StartedCanComplete`); after a crashed worker it can if and only if the step may
  be sent again and has an attempt left (`RunbookCompletion.CrashCanCompleteIff`).
- The correlation key of an event groups it exactly with its like if and only if it has labels and none
  contains the separator (`Correlation.KeyIsExactIff`).
- A canceled execution keeps that status without further commands if and only if no step is leased
  and none awaits a decision, and whatever happens if and only if, moreover, none is failed or
  ambiguous (`RunbookTheorems.CanceledStaysIff`, `RunbookWitnesses.CanceledIsNotFinal`).
- The replay cache answers exactly after every history up to some reading if and only if the clock is
  not behind that reading (`Replay.ExactIffClockAdvances`).
- Every validated policy decides the same again on what it recorded if and only if no input that a
  policy may refer to is longer than 256 bytes (`Policy.DecisionsReplayIff`).
- The stream and the worker share one delivery limit, so after the last delivery the dead letter is
  published ever after if and only if its single attempt succeeds (`Worker.LastDeadLetterDecides`,
  `Worker.MessageIsLost`).
- Deliveries of the mock channel can overlap and exceed five attempts; exactly those
  (`Outbox.UnsafeIffMock`).
- Some retry delay exceeds the configured maximum if and only if that maximum is below a millisecond
  (`Backoff.AboveMaximumIff`).

## Model

| member | source | states |
|---|---|---|
| Documents.ParsedAttempts | internal/runbooks/document.go:336-343 | a limit is accepted exactly when it is omitted or between one and ten, and is three when omitted |
| Documents.Validate | internal/runbooks/document.go:205-214 | one pass with a set of seen ids accepts exactly the documents of 1 to 100 valid steps with pairwise distinct ids |
| Runbook.Sources | internal/storage/execution_control.go:132-150 | the rollback sources are exactly the completed forward steps with a rollback definition, in strictly decreasing position |
| RunbookSafety.StartOk | internal/storage/executions.go:59-97 | a freshly started execution of any valid document satisfies the joint invariant |
| RunbookSafety.ClaimOk | internal/storage/execution_scheduler.go:27-53 | a claim keeps the invariant: lane order, attempt bound, and the new (step, attempt) differs from every earlier claim |
| RunbookSafety.WriteIsLawful | internal/storage/execution_scheduler.go:75-267 | each of the nine transactions that write one step row changes that row and the status only, keeps attempts and fixed columns, and never touches a finished row |
| RunbookSafety.CancelOk | internal/storage/execution_control.go:41-49 | cancelling keeps the invariant over all rows at once |
| RunbookSafety.StartRollbackOk | internal/storage/execution_control.go:122-179 | appending the rollback lane keeps the invariant of both lanes |
| RunbookSafety.NextOk | internal/storage/execution_scheduler.go:15-352 | every one of the fourteen transactions keeps the joint invariant, whether it commits or aborts |
| RunbookSafety.RunOk | internal/storage/execution_scheduler.go:15-352 | every run, in any order and with any arguments, keeps the joint invariant |
| RunbookTheorems.RowFrame | internal/storage/execution_control.go:13-190 | a transaction on a step changes no other row and no fixed column; only a cancel writes several rows |
| RunbookTheorems.RestingRow | internal/storage/execution_control.go:80-91 | a finished row never changes; a failed or ambiguous one only by a retry, and an unsafe ambiguous one only by a forced retry |
| RunbookTheorems.RowInvariant | internal/storage/execution_scheduler.go:47-53 | in every reachable state a step has a lease exactly when it is running or rolling back, a pending approval's step waits or is canceled, and attempts never exceed the limit plus operator retries |
| RunbookTheorems.LaneDiscipline | internal/storage/execution_scheduler.go:36-42 | in every reachable state a step that was ever claimed has only finished steps below it in its lane, so no lane has two started and unfinished steps |
| RunbookTheorems.ClaimsAreUniqueAndOrdered | internal/storage/execution_scheduler.go:47-53 | over a whole run no (step, attempt) pair is handed out twice and no lane is ever claimed backwards |
| RunbookTheorems.FinalMeansSettled | internal/storage/execution_scheduler.go:269-285 | a completed or rolled-back execution has every step finished, or canceled with the cancel requested |
| RunbookTheorems.LeaseFence | internal/storage/execution_scheduler.go:208-267 | a leased row is changed only by its owner, or by recovery at a time past the lease |
| RunbookTheorems.FinishedForever | internal/storage/execution_scheduler.go:225-235 | no run changes any column of a finished step |
| RunbookTheorems.FailedRestsUntilRetry | internal/storage/execution_control.go:80-91 | without an effective retry of it, no run changes any column of a failed or ambiguous step |
| RunbookTheorems.AmbiguousNeedsForce | internal/storage/execution_control.go:87-91 | an ambiguous step that is neither a plugin nor carries an idempotency header is never claimed again in a run without a forced retry of it |
| RunbookTheorems.CancelIsFinal | internal/storage/execution_scheduler.go:31-33 | once a cancel is committed no run claims anything again, whatever completions, recoveries and approvals follow |
| RunbookTheorems.CanceledStaysIff | internal/storage/execution_control.go:41-49 | after a committed cancel the status stays canceled in every command-free run if and only if no step is leased and none awaits a decision, and in every run at all if and only if also none is failed or ambiguous |
| RunbookProgress.StatusAgrees | internal/storage/execution_scheduler.go:208-285 | without operator commands and stale last-attempt failures, the execution's status is at every moment the one its first unfinished step dictates |
| RunbookProgress.StaleFailureBreaksAgreement | internal/storage/execution_scheduler.go:248-256 | a failure report keeps the status in agreement if and only if the reporter holds the lease or attempts are left |
| RunbookProgress.Progress | internal/storage/execution_scheduler.go:75-206 | an execution in agreement that has not ended always has a worker, timer or approval transaction that changes its current step |
| RunbookProgress.PotentialDrops | internal/storage/execution_scheduler.go:242-257 | twice the remaining attempts plus a status rank, summed over the steps, drops with every transaction that changes a step outside operator commands |
| RunbookProgress.UntouchedRunsEnd | internal/runbooks/document.go:336-343 | every run without operator commands changes steps at most 22 times the number of steps |
| RunbookProgress.RunsEnd | internal/storage/execution_control.go:65-190 | every run with any commands changes steps at most 22 times the forward steps plus 23 times the compensations plus five times the committed retries |
| RunbookProgress.RunsToAnEnd | internal/storage/execution_scheduler.go:269-285 | from every state in agreement some run without operator commands ends completed, failed or ambiguous |
| RunbookCompletion.UntouchedCanCompleteIff | internal/storage/execution_scheduler.go:208-285 | an execution in agreement has a command-free run to completed if and only if it is running, awaits an approval or is completed |
| RunbookCompletion.StartedCanComplete | internal/storage/execution_scheduler.go:208-285 | from the start, without commands and stale last-attempt failures, completion stays open if and only if no step is failed or ambiguous |
| RunbookCompletion.FirstStepIsDue | internal/storage/executions.go:66-97 | a started execution offers exactly its first step, exactly from its start on |
| RunbookCompletion.CrashCanCompleteIff | internal/storage/execution_scheduler.go:106-119 | after recovery of a crashed worker the execution has a command-free run to completed if and only if the step is a plugin, or HTTP with an idempotency header, with an attempt left |
| RunbookCompletion.RetryCanComplete | internal/storage/execution_control.go:80-95 | after a committed retry the step can be claimed at once and the execution has a command-free run to completed |
| RunbookCompletion.RetryWrites | internal/storage/execution_control.go:80-95 | a retry commits exactly for a failed step, or an ambiguous one that is safe to replay or forced, and makes that step due now and the execution running |
| RunbookEffects.ReportWrites | internal/storage/execution_scheduler.go:222-257 | a report commits exactly on a leased step; the holder's row gets the reported, retried or failed status, anyone else's report leaves it alone, and the execution becomes final exactly when nothing of either lane remains |
| RunbookEffects.DecisionWrites | internal/storage/approvals.go:88-110 | a decision commits exactly on a pending approval; approving completes the step, and the execution exactly if every other row is settled; rejecting fails both |
| RunbookEffects.CancelWrites | internal/storage/execution_control.go:41-49 | a cancel cancels exactly the steps that are pending, retrying, waiting or awaiting approval and leaves every other row alone |
| RunbookEffects.PauseRoundTrip | internal/storage/execution_control.go:29-40 | pause and resume undo each other and are refused in every other status |
| RunbookEffects.LeaseProtects | internal/storage/execution_scheduler.go:47-53 | in every run a claimed step stays its worker's, with its new attempt, until the worker acts or the lease runs out, and recovery takes it exactly from then on |
| RunbookEffects.WaitHolds | internal/storage/execution_scheduler.go:133-174 | in every run without a cancel a scheduled wait lasts until its time, and a timer completes it exactly from then on |
| RunbookEffects.ApprovalHolds | internal/storage/approvals.go:12-48 | in every run without a cancel a first opened approval stays open for a decision until its time, if it has one, and expires exactly from then on |
| RunbookEffects.RetryWaits | internal/storage/execution_scheduler.go:242-247 | after a failure with attempts left the step is claimed no earlier than the time of its next attempt |
| RunbookProgress.PauseStrandsLastStep | internal/storage/execution_control.go:29-40 | pause, completion, resume leaves the status in agreement if and only if a later step exists; otherwise every run without a cancel keeps all steps and stays running or paused |
| RunbookProgress.StrandedForGood | internal/storage/execution_scheduler.go:269-285 | an execution with all steps finished that is running or paused is finalised by no run without a cancel |
| RunbookProgress.ReopenedApprovalStrands | internal/storage/approvals.go:22-36 | opening an approval makes the step await a decision if and only if it never had one; otherwise only a cancel ever changes the step |
| RunbookRollback.ReachedLayout | internal/storage/executions.go:66-97 | in every reachable state the rows are the document's steps in order, followed by compensations of completed steps in reverse order with keys that clash with none |
| RunbookRollback.RowsMatchDocument | internal/storage/execution_control.go:154-174 | in every reachable state a forward row carries kind, rollback, position and attempts of its step in the document, and a compensation those of the rollback action of the step it undoes |
| RunbookRollback.PlanIsExact | internal/storage/execution_control.go:132-178 | the plan pairs one-to-one with the completed steps that define a rollback, from the highest position down |
| RunbookRollback.PlanRejectedIff | internal/storage/execution_control.go:154-178 | the plan of a reachable execution always parses and is rejected exactly when some completed step that defines a rollback has a namesake of its compensation in the document |
| RunbookRollback.OnePlanOnly | internal/storage/execution_control.go:125-131 | once an execution has a plan no run inserts another row or changes what a row compensates |
| RunbookRollback.CompensationsRunInReverse | internal/storage/execution_scheduler.go:35-43 | over a whole run compensations are claimed in strictly decreasing position of the steps they undo |
| RunbookRollback.RollbackNeverResumes | internal/storage/execution_scheduler.go:110-119 | an execution with a plan that left rolling_back never returns to it, and no compensation is ever claimed again |
| RunbookRollback.FinishedRollbackCouldSettle | internal/storage/execution_scheduler.go:272-282 | any run that reaches rolled_back, with whatever operator commands, started with every row of both lanes still able to settle |
| RunbookRollback.RollbackCanFinish | internal/storage/execution_scheduler.go:269-285 | a committed rollback has a run to rolled_back if and only if no cancel was requested and no forward step is failed, ambiguous, pending, retrying or awaiting approval; then one without commands exists in which every compensation is rolled back, and otherwise no command helps |
| RunbookKeys.KeysIdentifySteps | internal/storage/executions.go:91-93 | equal idempotency keys in reachable states of any two executions mean the same execution, lane and step, for colon-free execution ids (UUID text form, section 3 of RFC 4122) |
| RunbookKeys.KeysAreUnique | internal/storage/migrations/003_runbooks_plugins.sql:59-60 | no reachable state violates the unique constraints on step keys and idempotency keys |
| RunbookKeys.KeyIsStable | internal/storage/execution_control.go:174 | over every run a step keeps the idempotency key of its first attempt |
| RunbookEngine.StepKeeps | internal/runbookengine/engine.go:131-228 | every claim of the step beyond the first is paid for by a forced retry or by an attempt that failed before sending |
| RunbookEngine.RequestsSent | internal/runbookengine/engine.go:230-284 | in every interleaving the requests sent for an HTTP step without idempotency header are at most one plus the forced retries of its ambiguous outcome |
| RunbookWitnesses.StaleFailureHappens | internal/storage/execution_scheduler.go:248-256 | from a fresh start, one claim and one failure report by another worker leave the execution failed while its step is leased and running |
| RunbookWitnesses.PauseStrands | internal/storage/execution_control.go:29-40 | from a fresh start of a one-step document a pause around its completion strands the execution in every run without a cancel |
| RunbookWitnesses.CanceledIsNotFinal | internal/storage/execution_scheduler.go:327-352 | from a fresh start a cancel under a running step is followed by status ambiguous once its worker reports an unknown outcome |
| RunbookWitnesses.ReopenedStrands | internal/storage/approvals.go:22-36 | from a fresh start an approval rejected, retried and opened again waits, with its old decision, in every run without a cancel |
| RunbookWitnesses.FailedRollbackNeverFinishes | internal/storage/execution_scheduler.go:269-285 | from a fresh start a rollback after a failed second step commits, and no run at all brings it to rolled_back |
| RunbookStore.FinalizeIfDone | internal/storage/execution_scheduler.go:269-285 | counting unsettled rows of both lanes computes the finalisation that the transitions use |
| RunbookStore.FindCandidate | internal/storage/execution_scheduler.go:27-46 | the scan with its anti-join returns a claimable row, and none only if no row is claimable |
| RunbookStore.AtMostOneCandidate | internal/storage/execution_scheduler.go:36-43 | under the invariant an execution has at most one claimable row, so one batch never claims two steps of it |
| RunbookStore.RecoveryIsComplete | internal/storage/execution_scheduler.go:101-126 | the recovery loop leaves no expired lease behind, touches no row it has not reached, and keeps the invariant |
| RunbookStore.RecoveryIsExact | internal/storage/execution_scheduler.go:101-126 | after the loop exactly the rows whose lease had run out have no lease and are due now, retrying if they may be sent again with an attempt left and ambiguous otherwise, and the execution follows the last of them |
| RunbookStore.FireDueIsOneTimer | internal/storage/execution_scheduler.go:155-174 | the bulk update of due waits is, on each execution, a single timer transition |
| RunbookStore.FiringIsExact | internal/storage/execution_scheduler.go:155-174 | exactly the waits that are over are completed, and the execution becomes final exactly if there was one and nothing remains |
| RunbookStore.ExpiryIsComplete | internal/storage/execution_scheduler.go:175-200 | the expiry loop leaves no approval past its time pending and keeps the invariant |
| RunbookStore.ExpiryIsExact | internal/storage/execution_scheduler.go:175-200 | exactly the pending approvals past their time are expired and their steps failed, and the execution fails exactly if there was one |
| RunbookStore.Store.constructor | internal/storage/executions.go:14-19 | an empty store satisfies the invariant |
| RunbookStore.Store.StartExecution | internal/storage/executions.go:14-105 | appends exactly the execution the model starts if the document is valid, and changes nothing otherwise |
| RunbookStore.Store.ClaimExecutionSteps | internal/storage/execution_scheduler.go:15-73 | claims at most the limit, of distinct executions in creation order, each row exactly as the claim transition; below the limit no claimable row is missed, and nothing else changes |
| RunbookStore.Store.ClaimRows | internal/storage/execution_scheduler.go:47-53 | writes one claim and returns the attempt it handed out |
| RunbookStore.Store.RecoverExpiredStepLeases | internal/storage/execution_scheduler.go:75-131 | in every execution exactly the rows whose lease had run out are released, retrying if they may be sent again with an attempt left and ambiguous otherwise, with the status to match; the result is their number |
| RunbookStore.Store.ScheduleWait | internal/storage/execution_scheduler.go:133-147 | commits the wait transition, or aborts with its error and changes nothing |
| RunbookStore.Store.AdvanceRunbookTimers | internal/storage/execution_scheduler.go:149-206 | in every execution exactly the waits that are over complete, and then exactly the approvals past their time fail; the result is the number of the former |
| RunbookStore.Store.CompleteExecutionStep | internal/storage/execution_scheduler.go:208-267 | aborts on a step that is not leased; otherwise the holder's row gets the reported, retried or failed status, a stale report leaves the row alone, and the execution row is written either way |
| RunbookStore.Store.MarkExecutionStepAmbiguous | internal/storage/execution_scheduler.go:327-352 | commits the ambiguity transition, or aborts on a lost lease and changes nothing |
| RunbookStore.Store.OpenApproval | internal/storage/approvals.go:12-48 | commits the opening, keeping an existing approval row, or aborts on a lost lease including the insert |
| RunbookStore.Store.DecideApproval | internal/storage/approvals.go:70-121 | aborts unless the approval is pending; approving completes the step, and the execution exactly if every other row is settled; rejecting fails both |
| RunbookStore.Store.ChangeExecutionState | internal/storage/execution_control.go:13-63 | pause, resume and cancel commit their transitions or abort with their errors, cancel rewriting exactly the steps not yet started or waiting; any other action aborts |
| RunbookStore.Store.RetryExecutionStep | internal/storage/execution_control.go:65-106 | commits the retry transition, or aborts without force on an unsafe ambiguous step |
| RunbookStore.Store.StartExecutionRollback | internal/storage/execution_control.go:108-190 | inserts the whole plan or, if any row of it is rejected, nothing |
| RunbookStore.CompleteWaits | internal/storage/execution_scheduler.go:155-174 | completes exactly the waits that are over, counts them, and finalises only if there was one |
| RunbookStore.RecoverRows | internal/storage/execution_scheduler.go:101-126 | the loop releases exactly the rows whose lease had run out, retrying or ambiguous as their kind and attempts say, and counts them |
| RunbookStore.ExpireApprovals | internal/storage/execution_scheduler.go:179-200 | the loop expires exactly the pending approvals past their time and fails their steps and the execution |
| RunbookStore.RollbackSources | internal/storage/execution_control.go:125-150 | decides whether a plan exists and collects the sources in decreasing position |
| RunbookStore.InsertPlan | internal/storage/execution_control.go:154-178 | fails exactly when some compensation does not parse or its key exists, and otherwise builds the plan |
| RunbookStore.ClaimLimit | internal/storage/execution_scheduler.go:16-18 | a limit from 1 to 100 is used as it is, and 10 otherwise |
| RunbookStore.ClaimLease | internal/storage/execution_scheduler.go:19-21 | a lease of at least five seconds is used as it is, and thirty seconds otherwise |
| Events.DedupeKeyIsExact | internal/events/normalize.go:131-139 | dedupe keys are equal if and only if both events are identified in the same way by the same value |
| Events.BucketIsOneWindow | internal/storage/process.go:264-270 | from 1970 on a bucket contains its instant, spans one window of whole seconds, and is shared exactly by instants of the same window |
| Events.BucketContainsIff | internal/storage/process.go:264-270 | because the division truncates toward zero, an instant lies in its own bucket if and only if it is not before 1970 or starts a window |
| Events.Unique | internal/storage/process.go:278-288 | the result has exactly the non-empty names given, each once |
| Events.UniqueStrings | internal/storage/process.go:278-288 | the loop with a seen set keeps first occurrences in order |
| Events.MaxSeverity | internal/storage/process.go:271-277 | the result is critical if either is, at least error if either is, and info only if both are |
| Correlation.PlainKeyIsExact | internal/events/normalize.go:141-147 | within a tenant an event has the key of a labelled event without separators in its labels if and only if it has the same labels |
| Correlation.Collides | internal/events/normalize.go:141-147 | every event without labels, or with a separator in one, shares its key with an event of another group |
| Correlation.KeyIsExactIff | internal/events/normalize.go:141-147 | the key of an event groups it exactly with its like if and only if it has labels and none contains the separator |
| Incidents.LifecycleRule | internal/incidents/state.go:17-37 | a transition is legal if and only if it moves an open incident forward or from mitigated back to investigating, closes a resolved one, or reopens an ended one |
| Incidents.AttachHistory | internal/storage/process.go:198-199 | attaching an event keeps the row in agreement with its log and its number of links |
| Incidents.MoveHistory | internal/storage/incidents.go:93-121 | a legal move extends the legal walk, and keeps resolved_at set exactly in resolved and closed and acknowledged_at exactly after an acknowledgement |
| Pipeline.Select | internal/storage/process.go:172 | selects an open incident of the key within the window with the latest event, and none only if there is none |
| Pipeline.TupleIsExact | internal/storage/process.go:44-60 | from 1970 on two events share their dedupe tuple if and only if tenant, source, identity and window agree |
| Pipeline.DedupeWindow | internal/storage/process.go:26-28 | a positive window is used as it is, and fifteen minutes otherwise |
| Pipeline.CorrelationWindow | internal/storage/process.go:29-31 | a positive window is used as it is, and thirty minutes otherwise |
| Pipeline.ErasedHasNoRepeats | internal/storage/process.go:56-65 | the erased schedule contains no crashed delivery and no dedupe tuple twice |
| Pipeline.ProcessVisible | internal/storage/process.go:56-95 | a delivery of a known tuple, or one whose channels are unknown, leaves everything visible unchanged; a first delivery is admitted |
| Pipeline.RedeliveriesAreErased | internal/storage/process.go:44-155 | any schedule of deliveries, redeliveries, crashes and operator moves ends with the same incidents, links, outbox and tokens as the schedule without crashed, failing and repeated deliveries |
| PipelineInvariant.EnqueueOk | internal/storage/notifications.go:44-65 | enqueueing only appends, keeps rows distinct, and covers every target channel |
| PipelineInvariant.NumberedDuplicate | internal/storage/process.go:131-142 | a duplicate record keeps the numbers of each canonical event gapless and unique |
| PipelineInvariant.PerformOk | internal/storage/process.go:22-155 | every delivery, operator move and token acknowledgement keeps the joint invariant of the tables |
| PipelineInvariant.Conservation | internal/storage/process.go:51-71 | in every run raw events are canonical events plus duplicate records, duplicates of an event are numbered exactly 1 to its count, each canonical event has one link, and no outbox row repeats |
| PipelineInvariant.IncidentIsFold | internal/storage/process.go:187-204 | in every run severity and last event time are the maxima over the linked events, the log is a legal walk to the current state, and the version counts links and moves |
| Notifications.DeliverableIff | internal/storage/notifications.go:44-52 | a first delivery commits if and only if a matching policy suppresses it or every channel to be notified is known |
| Notifications.FirstDeliveryNotifies | internal/storage/process.go:81-96 | unless suppressed, a first delivery adds a row for every channel a matching policy names, or the local mock if none is named, with state and severity after the event, and no other row; one unused token for 24 hours is added exactly if a row was |
| Notifications.NotificationsStay | internal/storage/notifications.go:44-65 | the rows of everyone to be notified of a first delivery are in the outbox of every later state |
| Notifications.MoveWrites | internal/storage/incidents.go:93-121 | a move is made exactly if it is legal and its version, if given, is current; it changes state, times, version and log of that incident only |
| Notifications.VersionIsSpent | internal/storage/incidents.go:93-95 | after a move made with a version no run lets a second move be made with it |
| Notifications.TokenAcknowledges | internal/storage/incidents.go:134-175 | a token acknowledges exactly a detected or reopened incident, unused and before its time, and is used by that |
| Notifications.TokenIsSpent | internal/storage/incidents.go:155-166 | after a token acknowledged something no run lets it change anything again |
| Sessions.SelectsNewest | internal/storage/process.go:172 | without closures the selected incident is the newest of its key, and none is selected only if all of the key ended more than a window before |
| Sessions.AdmitKeepsApart | internal/storage/process.go:167-208 | for any arrival order only the newest incident of the key grows, and every other incident is untouched |
| Sessions.SessionsNeverOverlap | internal/storage/process.go:167-208 | in every run without closures an earlier incident of a key ends more than a window before a later one begins |
| Sessions.IncidentsAreMaximalRuns | internal/storage/process.go:167-208 | for in-order arrivals two events of a key share an incident if and only if no neighbouring gap between them exceeds the window |
| EventStore.EvaluatePolicies | internal/storage/process.go:228-261 | the loop yields the distinct channels of the matching policies and whether any of them suppresses |
| EventStore.Correlate | internal/storage/process.go:167-172 | the scan returns the incident that the model selects |
| EventStore.EnqueueNotifications | internal/storage/notifications.go:43-65 | succeeds exactly when every channel is known, and then inserts each missing row once |
| EventStore.AdmitRows | internal/storage/process.go:73-95 | fails exactly when the delivery is not suppressed and a channel to be notified is unknown; otherwise attaches the event and adds exactly the rows of the channels to be notified and their token |
| EventStore.Store.constructor | internal/storage/process.go:22-50 | empty tables satisfy the invariant |
| EventStore.Store.ProcessEvent | internal/storage/process.go:22-123 | the tables become what the model computes and keep the invariant; the call commits exactly for a known tuple or known channels, and a committed first delivery notifies exactly who is to be notified |
| EventStore.Store.RecordDuplicate | internal/storage/process.go:125-155 | adds the raw row, the count and the numbered record, and touches no other table |
| EventStore.Store.AdmitEvent | internal/storage/process.go:73-123 | commits all tables of a first delivery, with exactly the notifications it calls for, or none |
| EventStore.Store.TransitionIncident | internal/storage/incidents.go:79-132 | moves the incident exactly when the version, if given, is current and the move is legal: state, times, version and log of that incident change and nothing else |
| EventStore.Store.AcknowledgeByToken | internal/storage/incidents.go:134-186 | spends an unexpired unused token on a legal acknowledgement only, writes nothing else, and tells an unknown token, one already handled, an incident that cannot be acknowledged and a recorded acknowledgement apart |
| Worker.MaxDeliveries | internal/worker/worker.go:176-181 | a configured limit of at least two is used as it is, and five otherwise |
| Worker.NextOk | internal/worker/worker.go:79-137 | every fetch, transaction, dead letter, nak, acknowledgement and crash keeps the protocol's invariant |
| Worker.AckOnlyAfterKept | internal/worker/worker.go:79-137 | in every run an acknowledged message is stored in the database or has a dead-letter copy |
| Worker.MessageCanBeStored | internal/worker/worker.go:79-114 | in every state a message still delivered, that decodes and whose channels are known, is stored and acknowledged by a handler that does not crash |
| Worker.LostOnlyInLastDelivery | internal/worker/worker.go:115-137 | under every configured limit a message that is given up on and kept nowhere had its last delivery crash or fail to publish the dead letter |
| Worker.GivenUpForGood | internal/messaging/nats.go:94-106 | once the stream's limit is reached and no handler is left, no run changes the message or dead-letters it |
| Worker.LastDeadLetterDecides | internal/worker/worker.go:121-131 | after the last delivery failed, the message is in the dead letters of every later state if and only if that one publish succeeds |
| Worker.MessageIsLost | internal/worker/worker.go:121-131 | under every configured limit some run from the start ends with a message that no later run stores or dead-letters |
| Worker.DatabaseFollowsSchedule | internal/worker/worker.go:79-114 | the database of a concurrent run is the pipeline's run over the committed deliveries and the operators' moves in commit order |
| Worker.EffectOnce | internal/worker/worker.go:79-114 | whatever crashes, redeliveries, parallel handlers and operators do, what responders see is the run over the operators' moves and each dedupe tuple's first commit only |
| Outbox.RunOk | internal/storage/notifications.go:84-151 | for a channel other than the mock every run keeps at most one claim outstanding, and then only while the outcome is open |
| Outbox.ExternalDeliveryIsSafe | internal/storage/notifications.go:84-151 | under any lease expiries, crashes and late reports such a delivery has at most one outstanding claim and at most five attempts |
| Outbox.DeliveredForGood | internal/storage/notifications.go:143-145 | a delivered notification is never claimed or changed again |
| Outbox.SuccessIsFinal | internal/storage/notifications.go:143-145 | in every run of such a delivery a reported success leaves it delivered without a lease, and every further run leaves it unchanged and unclaimed |
| Outbox.BackOffIsHonoured | internal/storage/notifications.go:88 | after a failed attempt that may be repeated a claim succeeds exactly from the time of the next attempt on |
| Outbox.UnreportedClaimExpires | internal/storage/notifications.go:84-110 | a claim nobody reports is given up exactly from 30 seconds on, as unknown, or as failed for the mock |
| Outbox.FailuresBackOff | internal/storage/notifications.go:148 | in every run of such a delivery a failed attempt is due again after exactly two to the power of its attempts, between 2 and 32 seconds, and gives up exactly at the fifth |
| Outbox.MockClaimsPileUp | internal/storage/notifications.go:84 | a mock delivery reaches any number of outstanding claims and attempts through expiring leases |
| Outbox.UnsafeIffMock | internal/storage/notifications.go:84-110 | some schedule has two outstanding claims, and some more than five attempts, if and only if the channel is the mock |
| Outbox.OutboxStore.constructor | internal/storage/notifications.go:75-83 | the table starts empty |
| Outbox.OutboxStore.ClaimDeliveries | internal/storage/notifications.go:75-128 | expires leases, then claims distinct due rows in order of their next attempt up to the limit, misses none below the limit, and changes nothing else |
| Outbox.OutboxStore.ExpireLeases | internal/storage/notifications.go:84 | every row with an expired lease becomes failed for the mock and ambiguous otherwise |
| Outbox.OutboxStore.CompleteDelivery | internal/storage/notifications.go:130-159 | a success makes the row delivered; a failure makes it due again within 300 seconds, or unknown from the fifth attempt on; the lease ends, and no other row changes |
| Outbox.FirstDue | internal/storage/notifications.go:88 | finds a due row with the earliest next attempt, and none only if no row is due |
| Outbox.ClaimLimit | internal/storage/notifications.go:76-78 | a limit from 1 to 100 is used as it is, and 20 otherwise |
| Replay.CacheIsExact | internal/ingestion/replay.go:33-68 | after any calls, a reservation at a reading no earlier than theirs is a duplicate exactly when the never-pruned history holds the key unexpired, is refused exactly when max live keys are held, and the cache has at most max entries |
| Replay.GrantedOncePerLifetime | internal/ingestion/replay.go:29-52 | two grants of one key without a release between them, the second at the latest reading so far, are at least one lifetime apart |
| Replay.EarlierReadingGrantsTwice | internal/ingestion/replay.go:40-45 | for every capacity above one and every reading behind another, a run that prunes at the later one grants at the earlier one a key that is still held |
| Replay.ExactIffClockAdvances | internal/ingestion/replay.go:33-52 | a reading is answered exactly after every history of calls up to a latest reading if and only if it is not before that |
| Replay.ReplayCache.constructor | internal/ingestion/replay.go:22-27 | starts empty with a capacity of at least 1000 |
| Replay.ReplayCache.Reserve | internal/ingestion/replay.go:33-52 | the pruning loop and the insertion yield the cache and the answer of the model |
| Replay.ReplayCache.Accept | internal/ingestion/replay.go:55-57 | accepts exactly when the reservation is granted |
| Replay.ReplayCache.Release | internal/ingestion/replay.go:61-68 | removes the key and nothing else, and does nothing for the empty key |
| Limiter.LevelFitsEveryWindow | internal/ingestion/ratelimit.go:25-40 | the bucket's level never exceeds what any window of calls still allows |
| Limiter.LevelIsSomeWindow | internal/ingestion/ratelimit.go:25-40 | the bucket's level is exactly what some window of calls still allows |
| Limiter.WindowBound | internal/ingestion/ratelimit.go:22-42 | in any window of calls that ends in an allowed one, allowed calls are at most burst plus rate times its length, for any non-zero clock readings |
| Limiter.AllowedIffEveryWindowHasRoom | internal/ingestion/ratelimit.go:22-42 | a call is allowed if and only if no window ending in it would exceed its bound |
| Limiter.KeysAreIndependent | internal/ingestion/ratelimit.go:25-40 | in any interleaving a key's call is decided by that key's own readings |
| Limiter.Limiter.constructor | internal/ingestion/ratelimit.go:19-21 | starts without buckets |
| Limiter.Limiter.Allow | internal/ingestion/ratelimit.go:22-42 | refills, caps and takes as the model does, on the key's bucket only |
| Policy.ValidIsWellFormed | internal/policies/policy.go:81-125 | validation accepts exactly the trees in which every node has one clause and every atom one comparison on a field that is not sensitive |
| Policy.ErrorIsLocated | internal/policies/policy.go:98-114 | a rejected expression is blamed, under its path of all and any indices, on a node with that error of its own, past well-formed elder siblings only |
| Policy.EvalIsMeaning | internal/policies/policy.go:143-181 | on validated expressions short-circuit evaluation equals the plain Boolean meaning of all, any, not and membership |
| Policy.DecisionActsIff | internal/policies/policy.go:127-141 | a validated policy carries its actions exactly when its expression holds; otherwise it suppresses nothing, asks for no approval and names no channel, team, escalation or runbook |
| Policy.ExplanationIsTrue | internal/policies/policy.go:143-181 | every comparison in an explanation is true of the inputs, and its last line is about the clause of the node and carries the verdict |
| Policy.FieldsDecide | internal/policies/policy.go:194-207 | on well-formed expressions verdict and explanation depend only on the collected fields |
| Policy.InputsAreNeverRedacted | internal/policies/policy.go:127-141 | a validated policy records exactly its fields, each with the input's value cut to 256 bytes and never redacted |
| Policy.DecisionCanBeTakenAgain | internal/policies/policy.go:127-141 | evaluating a validated policy on the inputs a decision recorded gives the same decision, if no value it refers to exceeds 256 bytes |
| Policy.LongValueIsLost | internal/policies/policy.go:215-217 | for every input with a longer value of a field that is not sensitive, a validated policy matches and does not replay |
| Policy.DecisionsReplayIff | internal/policies/policy.go:127-219 | for given inputs every validated policy decides the same again on its record if and only if no named input that is not sensitive exceeds 256 bytes |
| Policy.IsSensitiveField | internal/policies/policy.go:221-229 | the nested search is true exactly when the lower-cased field contains one of the seven words |
| Policy.Validate | internal/policies/policy.go:81-125 | the loops over children return the first error in document order together with its path |
| Policy.Match | internal/policies/policy.go:143-181 | the loops with early return compute the verdict and explanation of the model |
| Policy.CollectFields | internal/policies/policy.go:194-207 | adds exactly the fields of the tree to the given set |
| Policy.Decide | internal/policies/policy.go:127-141 | for a validated policy the verdict is the meaning of its expression and its actions are given exactly then; id, version, explanation and sanitized inputs are those of the model |
| Policy.Sanitize | internal/policies/policy.go:208-219 | redacts a sensitive field and cuts any other value to 256 bytes |
| Policy.EventInputs | internal/policies/policy.go:183-192 | every label is readable under its prefix, and no label can change severity, type, source, subject or environment |
| Backoff.Double | internal/worker/worker.go:206-220 | the doubling loop computes the minimum of the cap and the base times two to the power of the delivery number minus one, limited to nineteen, without overflow of 64-bit integers |
| Backoff.RetryDelay | internal/worker/worker.go:199-234 | for the configured ranges no 64-bit operation overflows and the result is the jittered, clamped closed form |
| Backoff.EffectiveBase | internal/worker/worker.go:200-202 | a positive base is used as it is, and one second otherwise |
| Backoff.EffectiveMaximum | internal/worker/worker.go:203-205 | a maximum of at least the base is used as it is, and thirty seconds otherwise |
| Backoff.CappedIsMonotone | internal/worker/worker.go:206-220 | later deliveries never wait less before jitter, and never above the maximum |
| Backoff.CappedDoubles | internal/worker/worker.go:206-220 | the first wait is the base and each wait up to the twentieth doubles the one before, within the maximum |
| Backoff.CappedSaturates | internal/worker/worker.go:206-209 | from the twentieth delivery on the wait is constant, and equal to the maximum exactly when 2^19 bases reach it |
| Backoff.JitterIsScaling | internal/worker/worker.go:225-226 | a wait strictly between a millisecond and the maximum is the delay times the permille, rounded down |
| Backoff.JitterBounds | internal/worker/worker.go:225-233 | the result is at most the larger of maximum and one millisecond, and within a fifth of the delay up to those limits |
| Backoff.AboveMaximumIff | internal/worker/worker.go:227-232 | for every base and maximum some delivery number and some jitter wait longer than the maximum if and only if the maximum is below a millisecond |

## Left out

- HTTP routing, JSON and YAML decoding, the command line, SDK clients, plugin servers and the web console: plumbing around libraries.
- SQL isolation levels, row locks, SKIP LOCKED, advisory locks and cursors: a transaction is one atomic step that commits or changes nothing. A claim may therefore see every row.
- Encryption, HMAC, hashing, randomness and OIDC verification. A decryption failure aborts a claim of deliveries and changes nothing.
- Telemetry, metrics, logging and the audit chain: they do not guide the modelled state. The number of audited retries of a step appears as a column that no guard reads.
- Normalisation of incoming payloads and fingerprints: an event arrives with its keys, severity and time.
- Accounts, roles, API keys and versioned definition uploads: table lookups and single checks.
- Runbook timeouts, step conditions, URL and header checks and retry backoff settings of documents: they would only add single-branch checks. A retry time of a runbook step is any time.
- Plugin actions: only their safety to replay is modelled.
- Titles, services and other descriptive columns of rows, and the clearing of wait_until after a wait: nothing modelled reads them.
- Floating-point rounding in the token bucket: the model is over exact reals.
- Message metadata that cannot be read, which the worker treats as a first delivery.
- The link between the evaluator and the pipeline: the pipeline takes the decisions of the enabled policies as an input of the step.
- RunbookStore.Store.StartExecutionRollback: one error stands for every reason a plan is rejected, because only a clash of names occurs in a reachable state (RunbookRollback.PlanRejectedIff).
- Documents.Validate: checks of URLs, headers, durations, timeouts, prompts and conditions are not modelled, because no transaction reads what they guard.
- RunbookEngine.RequestsSent: retransmission below the HTTP client is not modelled, because the client is foreign code.
- Replay.CacheIsExact: concurrent calls are in the order of the mutex, because each call holds it throughout.
- Policy.Match: explanation lines are values rather than formatted text, because formatting belongs to the library.
