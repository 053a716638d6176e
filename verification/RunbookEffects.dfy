/** What the runbook transactions leave in the rows, and how long it holds. */
module RunbookEffects {
  import opened Base
  import opened Runbook
  import opened RunbookSafety
  import opened RunbookTheorems

  // ---- Recovery ------------------------------------------------------------------------------

  /** The lease has run out by `now`. */
  predicate LeaseOver(s: Step, now: int) {
    s.lease.Some? && s.lease.value.expiresAt <= now
  }

  /** The step can be sent again under its idempotency key and has an attempt left. */
  predicate ShouldRetry(s: Step) {
    && s.attempts < s.spec.maxAttempts
    && (s.spec.kind.Plugin? || (s.spec.kind.Http? && |s.spec.kind.idempotencyHeader| > 0))
  }

  ghost predicate RowRecovered(before: Step, after: Step, now: int) {
    if LeaseOver(before, now)
    then after == before.(status := if ShouldRetry(before) then Retrying else Ambiguous, lease := None, nextAttemptAt := now)
    else after == before
  }

  /** Row `i` is the last one below `n` whose lease has run out. */
  ghost predicate LastOver(steps: seq<Step>, n: nat, i: nat, now: int) {
    && i < n <= |steps| && LeaseOver(steps[i], now)
    && forall k | i < k < n :: !LeaseOver(steps[k], now)
  }

  ghost predicate RowsRecovered(before: seq<Step>, after: seq<Step>, n: nat, now: int) {
    && n <= |before| == |after|
    && (forall i | 0 <= i < n :: RowRecovered(before[i], after[i], now))
    && (forall i | n <= i < |before| :: after[i] == before[i])
  }

  ghost predicate StatusRecovered(steps: seq<Step>, n: nat, before: ExecutionStatus, after: ExecutionStatus, now: int)
    requires n <= |steps|
  {
    && ((forall i | 0 <= i < n :: !LeaseOver(steps[i], now)) ==> after == before)
    && (forall i: nat | LastOver(steps, n, i, now) :: after == if ShouldRetry(steps[i]) then ExecRunning else ExecAmbiguous)
  }

  /** The first `n` rows are recovered, and the status follows the last of them that was. */
  ghost predicate IsRecovered(e: Execution, e': Execution, n: nat, now: int) {
    && RowsRecovered(e.steps, e'.steps, n, now)
    && StatusRecovered(e.steps, n, e.status, e'.status, now)
    && e' == e.(steps := e'.steps, status := e'.status)
  }

  lemma RecoverWrites(e: Execution, i: nat, now: int)
    requires i < |e.steps| && StepOk(e.steps[i], e.cancelRequested)
    ensures var e' := Apply(e, Recover(i, now));
            if LeaseOver(e.steps[i], now)
            then && |e'.steps| == |e.steps| && RowRecovered(e.steps[i], e'.steps[i], now)
                 && e' == e.(steps := e.steps[i := e'.steps[i]],
                             status := if ShouldRetry(e.steps[i]) then ExecRunning else ExecAmbiguous)
            else e' == e
  {
  }

  lemma StatusOfNextRow(steps: seq<Step>, n: nat, before: ExecutionStatus, mid: ExecutionStatus, after: ExecutionStatus, now: int)
    requires n < |steps| && StatusRecovered(steps, n, before, mid, now)
    requires after == if LeaseOver(steps[n], now) then (if ShouldRetry(steps[n]) then ExecRunning else ExecAmbiguous) else mid
    ensures StatusRecovered(steps, n + 1, before, after, now)
  {
    hide LeaseOver;
    hide ShouldRetry;
    forall i: nat | LastOver(steps, n + 1, i, now) ensures after == if ShouldRetry(steps[i]) then ExecRunning else ExecAmbiguous {
      assert i < n ==> LastOver(steps, n, i, now);
    }
  }

  lemma RecoverNextRow(e: Execution, e': Execution, n: nat, now: int)
    requires IsRecovered(e, e', n, now) && n < |e.steps| && StepOk(e.steps[n], e.cancelRequested)
    ensures IsRecovered(e, Apply(e', Recover(n, now)), n + 1, now)
  {
    hide Apply;
    hide StepOk;
    hide ShouldRetry;
    hide LeaseOver;
    hide StatusRecovered;
    RecoverWrites(e', n, now);
    StatusOfNextRow(e.steps, n, e.status, e'.status, Apply(e', Recover(n, now)).status, now);
  }

  // ---- Completion ----------------------------------------------------------------------------

  /** The status of an execution after a step settled: final exactly when nothing of either lane remains. */
  ghost predicate Finalised(before: ExecutionStatus, steps: seq<Step>, after: ExecutionStatus) {
    if forall k | 0 <= k < |steps| :: steps[k].status in {Completed, Skipped, RolledBack, Canceled}
    then after == (if before == ExecRunning then ExecCompleted else if before == ExecRollingBack then ExecRolledBack else before)
    else after == before
  }

  /** The row that a report leaves behind, given that its worker holds the lease. */
  ghost predicate RowReported(before: Step, after: Step, report: Report, retryAt: int) {
    match report
    case Success(status) =>
      after == before.(lease := None, status := if status in {Completed, Skipped, RolledBack} then status else Completed)
    case Failure =>
      if before.attempts < before.spec.maxAttempts
      then after == before.(lease := None, status := Retrying, nextAttemptAt := retryAt)
      else after == before.(lease := None, status := Failed)
  }

  ghost predicate IsReported(e: Execution, e': Execution, i: nat, worker: string, report: Report, retryAt: int) {
    && i < |e.steps| == |e'.steps|
    && e' == e.(steps := e.steps[i := e'.steps[i]], status := e'.status)
    && (if e.steps[i].lease.Some? && e.steps[i].lease.value.owner == worker
        then RowReported(e.steps[i], e'.steps[i], report, retryAt) else e'.steps[i] == e.steps[i])
    && (report.Success? ==> Finalised(e.status, e'.steps, e'.status))
    && (report.Failure? ==>
          e'.status == if e.steps[i].attempts < e.steps[i].spec.maxAttempts then e.status else ExecFailed)
  }

  lemma ReportWrites(e: Execution, i: nat, worker: string, report: Report, retryAt: int)
    requires i < |e.steps|
    ensures Next(e, Complete(i, worker, report, retryAt)).Committed? <==> e.steps[i].status in {Running, RollingBack}
    ensures e.steps[i].status in {Running, RollingBack} ==>
              IsReported(e, Next(e, Complete(i, worker, report, retryAt)).after, i, worker, report, retryAt)
  {
  }

  // ---- Decisions and timers ------------------------------------------------------------------

  ghost predicate IsDecided(e: Execution, e': Execution, i: nat, approve: bool) {
    && i < |e.steps| == |e'.steps|
    && e' == e.(steps := e.steps[i := e'.steps[i]], status := e'.status)
    && e.steps[i].approval.Some? && e.steps[i].approval.value.status == ApprovalPending
    && var row := e.steps[i].approval.value;
       if approve then
         && e'.steps[i] == e.steps[i].(status := Completed, approval := Some(ApprovalRow(ApprovalApproved, row.expiresAt)))
         && e'.status == (if forall k | 0 <= k < |e.steps| && k != i ::
                            e.steps[k].status in {Completed, Skipped, RolledBack, Canceled}
                          then ExecCompleted else ExecRunning)
       else
         && e'.steps[i] == e.steps[i].(status := Failed, approval := Some(ApprovalRow(ApprovalRejected, row.expiresAt)))
         && e'.status == ExecFailed
  }

  lemma DecisionWrites(e: Execution, i: nat, approve: bool)
    requires i < |e.steps|
    ensures var pending := e.steps[i].approval.Some? && e.steps[i].approval.value.status == ApprovalPending;
            && (Next(e, Decide(i, approve)).Committed? <==> pending)
            && (pending ==> IsDecided(e, Next(e, Decide(i, approve)).after, i, approve))
  {
    var s := e.steps[i];
    if AwaitsDecision(s) && approve {
      var mid := SetStep(e, i, s.(status := Completed, approval := Some(s.approval.value.(status := ApprovalApproved))));
      assert forall k | 0 <= k < |e.steps| && k != i :: mid.steps[k] == e.steps[k];
      assert AllSettled(mid.steps) <==> forall k | 0 <= k < |e.steps| && k != i :: Settled(e.steps[k].status);
    }
  }

  predicate WaitDone(s: Step, now: int) {
    s.status == Waiting && s.waitUntil <= now
  }

  predicate ApprovalOver(s: Step, now: int) {
    && s.approval.Some? && s.approval.value.status == ApprovalPending
    && s.approval.value.expiresAt.Some? && s.approval.value.expiresAt.value <= now
  }

  lemma ExpiryWrites(e: Execution, i: nat, now: int)
    requires i < |e.steps|
    ensures var e' := Apply(e, ExpireApproval(i, now));
            if ApprovalOver(e.steps[i], now)
            then |e'.steps| == |e.steps| && RowExpired(e.steps[i], e'.steps[i], now)
                 && e' == e.(steps := e.steps[i := e'.steps[i]], status := ExecFailed)
            else e' == e
  {
  }

  ghost predicate RowExpired(before: Step, after: Step, now: int) {
    if ApprovalOver(before, now)
    then after == before.(status := Failed, approval := Some(ApprovalRow(ApprovalExpired, before.approval.value.expiresAt)))
    else after == before
  }

  /** The first `n` rows have no approval past its time, and one that had fails the execution. */
  ghost predicate IsExpired(e: Execution, e': Execution, n: nat, now: int) {
    && n <= |e.steps| == |e'.steps|
    && e' == e.(steps := e'.steps, status := e'.status)
    && (forall i | 0 <= i < n :: RowExpired(e.steps[i], e'.steps[i], now))
    && (forall i | n <= i < |e.steps| :: e'.steps[i] == e.steps[i])
    && e'.status == (if exists i | 0 <= i < n :: ApprovalOver(e.steps[i], now) then ExecFailed else e.status)
  }

  lemma ExpireNextRow(e: Execution, e': Execution, n: nat, now: int)
    requires IsExpired(e, e', n, now) && n < |e.steps|
    ensures IsExpired(e, Apply(e', ExpireApproval(n, now)), n + 1, now)
  {
    hide Apply;
    hide ApprovalOver;
    ExpiryWrites(e', n, now);
  }

  /** Waits that are over are completed; the status becomes final if there was one and nothing remains. */
  ghost predicate IsFired(e: Execution, e': Execution, now: int) {
    && |e'.steps| == |e.steps| && e' == e.(steps := e'.steps, status := e'.status)
    && (forall i | 0 <= i < |e.steps| ::
          e'.steps[i] == if WaitDone(e.steps[i], now) then e.steps[i].(status := Completed) else e.steps[i])
    && (if exists i | 0 <= i < |e.steps| :: WaitDone(e.steps[i], now)
        then Finalised(e.status, e'.steps, e'.status) else e'.status == e.status)
  }

  // ---- Cancelling ----------------------------------------------------------------------------

  ghost predicate IsCanceled(e: Execution, e': Execution) {
    && |e'.steps| == |e.steps| && e' == e.(steps := e'.steps, status := ExecCanceled, cancelRequested := true)
    && forall i | 0 <= i < |e.steps| ::
         if e.steps[i].status in {Pending, Retrying, Waiting, WaitingApproval}
         then e'.steps[i] == e.steps[i].(status := Canceled, lease := None) else e'.steps[i] == e.steps[i]
  }

  /** Nothing is left to start, to wait for or to retry; what is running or has ended is untouched. */
  lemma CancelWrites(e: Execution)
    ensures Next(e, Cancel).Committed? <==> e.status !in {ExecCompleted, ExecCanceled, ExecRolledBack}
    ensures Next(e, Cancel).Committed? ==> IsCanceled(e, Next(e, Cancel).after)
  {
  }

  // ---- How long it holds ---------------------------------------------------------------------

  /** Pausing and resuming undo each other, and each refuses every other status. */
  lemma PauseRoundTrip(e: Execution)
    ensures Next(e, Pause).Committed? <==> e.status == ExecRunning
    ensures Next(e, Resume).Committed? <==> e.status == ExecPaused
    ensures e.status == ExecRunning ==> Apply(Apply(e, Pause), Resume) == e && Apply(e, Pause).status == ExecPaused
    ensures e.status == ExecPaused ==> Apply(Apply(e, Resume), Pause) == e
  {
  }

  /** Neither the worker itself nor a recovery at or after `until` acts on step `i`. */
  ghost predicate LeavesAlone(a: Action, i: nat, worker: string, until: int) {
    && !ByHolder(a, i, worker)
    && (a.Recover? && a.step == i ==> a.now < until)
  }

  lemma {:induction false} HeldRowStays(e: Execution, actions: seq<Action>, i: nat)
    requires ExecutionOk(e) && i < |e.steps| && e.steps[i].lease.Some?
    requires forall k | 0 <= k < |actions| ::
               LeavesAlone(actions[k], i, e.steps[i].lease.value.owner, e.steps[i].lease.value.expiresAt)
    ensures i < |Run(e, actions).steps| && Run(e, actions).steps[i] == e.steps[i]
    decreases |actions|
  {
    hide Next;
    if actions != [] {
      LeaseFence(e, actions[0], i);
      NextOk(e, actions[0]);
      assert LeavesAlone(actions[0], i, e.steps[i].lease.value.owner, e.steps[i].lease.value.expiresAt);
      hide ExecutionOk;
      HeldRowStays(Apply(e, actions[0]), actions[1..], i);
    }
  }

  /** A claimed step is its worker's until the lease runs out, whatever else commits; then recovery takes it. */
  lemma {:induction false} LeaseProtects(e: Execution, i: nat, worker: string, now: int, until: int, actions: seq<Action>)
    requires ExecutionOk(e) && Claimable(e, i, now)
    requires forall k | 0 <= k < |actions| :: LeavesAlone(actions[k], i, worker, until)
    ensures var e' := Run(Apply(e, Claim(i, worker, now, until)), actions);
            && i < |e'.steps| && HeldBy(e'.steps[i], worker) && e'.steps[i].attempts == e.steps[i].attempts + 1
            && forall t :: Next(e', Recover(i, t)).Committed? <==> until <= t
  {
    var claimed := Apply(e, Claim(i, worker, now, until));
    ClaimOk(e, i, worker, now, until);
    RunOk(claimed, actions);
    HeldRowStays(claimed, actions, i);
    hide Run;
    var e' := Run(claimed, actions);
    assert StepOk(e'.steps[i], e'.cancelRequested);
  }

  /** Neither a cancel nor a timer at or after `until` for step `i`. */
  ghost predicate TooEarly(a: Action, i: nat, until: int) {
    !a.Cancel? && (a.FireTimer? && a.step == i ==> a.now < until)
  }

  lemma WaitingRow(e: Execution, a: Action, i: nat)
    requires ExecutionOk(e) && i < |e.steps| && e.steps[i].status == Waiting && TooEarly(a, i, e.steps[i].waitUntil)
    ensures i < |Apply(e, a).steps| && Apply(e, a).steps[i] == e.steps[i]
  {
    RowFrame(e, a, i);
    hide RowsOk;
  }

  lemma {:induction false} WaitingRowStays(e: Execution, actions: seq<Action>, i: nat)
    requires ExecutionOk(e) && i < |e.steps| && e.steps[i].status == Waiting
    requires forall k | 0 <= k < |actions| :: TooEarly(actions[k], i, e.steps[i].waitUntil)
    ensures i < |Run(e, actions).steps| && Run(e, actions).steps[i] == e.steps[i]
    decreases |actions|
  {
    hide Next;
    hide ExecutionOk;
    if actions != [] {
      WaitingRow(e, actions[0], i);
      NextOk(e, actions[0]);
      WaitingRowStays(Apply(e, actions[0]), actions[1..], i);
    }
  }

  /** A scheduled wait lasts, whatever else commits short of a cancel, and a timer completes it exactly from its time on. */
  lemma {:induction false} WaitHolds(e: Execution, i: nat, worker: string, until: int, actions: seq<Action>)
    requires ExecutionOk(e) && Next(e, ScheduleWait(i, worker, until)).Committed?
    requires forall k | 0 <= k < |actions| :: TooEarly(actions[k], i, until)
    ensures var e' := Run(Apply(e, ScheduleWait(i, worker, until)), actions);
            && i < |e'.steps| && e'.steps[i].status == Waiting
            && (forall t :: Next(e', FireTimer(i, t)).Committed? <==> until <= t)
            && (forall t | until <= t :: i < |Apply(e', FireTimer(i, t)).steps| && Apply(e', FireTimer(i, t)).steps[i].status == Completed)
  {
    var waiting := Apply(e, ScheduleWait(i, worker, until));
    NextOk(e, ScheduleWait(i, worker, until));
    WaitingRowStays(waiting, actions, i);
    hide Run;
    hide ExecutionOk;
  }

  /** No cancel, no decision on step `i`, and no expiry of its approval at or after the time given. */
  ghost predicate Undecided(a: Action, i: nat, expiresAt: Option<int>) {
    && !a.Cancel? && !(a.Decide? && a.step == i)
    && (a.ExpireApproval? && a.step == i && expiresAt.Some? ==> a.now < expiresAt.value)
  }

  lemma ApprovalRowRests(e: Execution, a: Action, i: nat)
    requires ExecutionOk(e) && i < |e.steps| && e.steps[i].status == WaitingApproval && e.steps[i].approval.Some?
    requires Undecided(a, i, e.steps[i].approval.value.expiresAt)
    ensures i < |Apply(e, a).steps| && Apply(e, a).steps[i] == e.steps[i]
  {
    RowFrame(e, a, i);
    hide RowsOk;
  }

  lemma {:induction false} ApprovalRowStays(e: Execution, actions: seq<Action>, i: nat)
    requires ExecutionOk(e) && i < |e.steps| && e.steps[i].status == WaitingApproval && e.steps[i].approval.Some?
    requires forall k | 0 <= k < |actions| :: Undecided(actions[k], i, e.steps[i].approval.value.expiresAt)
    ensures i < |Run(e, actions).steps| && Run(e, actions).steps[i] == e.steps[i]
    decreases |actions|
  {
    hide Next;
    hide ExecutionOk;
    if actions != [] {
      ApprovalRowRests(e, actions[0], i);
      NextOk(e, actions[0]);
      ApprovalRowStays(Apply(e, actions[0]), actions[1..], i);
    }
  }

  /** A first opened approval stays open for a decision until its time, if it has one, and expires exactly from then on. */
  lemma {:induction false} ApprovalHolds(e: Execution, i: nat, worker: string, expiresAt: Option<int>, actions: seq<Action>)
    requires ExecutionOk(e) && Next(e, OpenApproval(i, worker, expiresAt)).Committed? && e.steps[i].approval.None?
    requires forall k | 0 <= k < |actions| :: Undecided(actions[k], i, expiresAt)
    ensures var e' := Run(Apply(e, OpenApproval(i, worker, expiresAt)), actions);
            && i < |e'.steps| && e'.steps[i].status == WaitingApproval
            && (forall approve :: Next(e', Decide(i, approve)).Committed?)
            && (forall t :: Next(e', ExpireApproval(i, t)).Committed? <==> expiresAt.Some? && expiresAt.value <= t)
  {
    var open := Apply(e, OpenApproval(i, worker, expiresAt));
    NextOk(e, OpenApproval(i, worker, expiresAt));
    ApprovalRowStays(open, actions, i);
    hide Run;
    hide ExecutionOk;
  }

  /** After a failure with attempts left nobody claims the step before the time the report gave. */
  lemma RetryWaits(e: Execution, i: nat, worker: string, retryAt: int, a: Action)
    requires ExecutionOk(e) && i < |e.steps| && HeldBy(e.steps[i], worker) && e.steps[i].attempts < e.steps[i].spec.maxAttempts
    ensures var e' := Apply(e, Complete(i, worker, Failure, retryAt));
            && i < |e'.steps| && e'.steps[i].status == Retrying
            && (a.Claim? && a.step == i && Next(e', a).Committed? ==> retryAt <= a.now)
  {
  }
}
