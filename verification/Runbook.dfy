/**
 * The durable runbook engine as a transition system. An execution is one row of `executions`
 * together with its rows of `execution_steps` and `approvals`; every committed transaction on it
 * is one `Action`. `Next` says what the transaction writes, or why it is rolled back.
 */
module Runbook {
  import opened Base
  import opened Documents

  datatype StepStatus =
    | Pending | Running | Waiting | WaitingApproval | Retrying | Completed
    | Skipped | Failed | Ambiguous | Canceled | RollingBack | RolledBack

  datatype ExecutionStatus =
    | ExecRunning | ExecWaitingApproval | ExecPaused | ExecCanceled | ExecCompleted
    | ExecFailed | ExecAmbiguous | ExecRollingBack | ExecRolledBack

  datatype ApprovalStatus = ApprovalPending | ApprovalApproved | ApprovalRejected | ApprovalExpired

  datatype ApprovalRow = ApprovalRow(status: ApprovalStatus, expiresAt: Option<int>)

  datatype Lease = Lease(owner: string, expiresAt: int)

  /** The columns of a step row that no transaction writes after the insert. */
  datatype StepSpec = StepSpec(
    key: string,
    kind: StepKind,
    rollback: Option<ActionDef>,
    isRollback: bool,
    position: nat,
    rollbackOf: Option<nat>,
    maxAttempts: nat,
    idempotencyKey: string)

  /**
   * A step row. The unique index on approvals(execution_step_id) makes its approval a column here.
   * `retries` counts the audit entries "execution_step.retry_requested"; no guard reads it.
   */
  datatype Step = Step(
    spec: StepSpec,
    status: StepStatus,
    attempts: nat,
    lease: Option<Lease>,
    nextAttemptAt: int,
    waitUntil: int,
    approval: Option<ApprovalRow>,
    retries: nat)

  /** One element of a claim's result: the attempt of a step handed to a worker. */
  datatype ClaimRecord = ClaimRecord(step: nat, attempt: nat, worker: string)

  /**
   * `runbook` is the pinned document version. `claims` lists what claims have returned so far;
   * no guard reads it.
   */
  datatype Execution = Execution(
    id: string,
    runbook: seq<StepDef>,
    status: ExecutionStatus,
    cancelRequested: bool,
    steps: seq<Step>,
    claims: seq<ClaimRecord>)

  datatype Report = Success(status: StepStatus) | Failure

  datatype Error =
    | NotFound | NotClaimable | StepNotRunning | LeaseLost | LeaseNotExpired | TimerNotDue
    | ApprovalNotDue | AlreadyDecided | NotPausable | NotPaused | AlreadyTerminal
    | NotRetryable | ForceRequired | NotRollbackable | RollbackExists | NothingToRollBack
    | PlanRejected | InvalidRunbook | Unsupported

  datatype Outcome = Committed(after: Execution) | Aborted(error: Error)

  datatype Action =
    | Claim(step: nat, worker: string, now: int, leaseUntil: int)
    | Complete(step: nat, worker: string, report: Report, retryAt: int)
    | MarkAmbiguous(step: nat, worker: string)
    | Recover(step: nat, now: int)
    | ScheduleWait(step: nat, worker: string, until: int)
    | FireTimer(step: nat, now: int)
    | ExpireApproval(step: nat, now: int)
    | OpenApproval(step: nat, worker: string, expiresAt: Option<int>)
    | Decide(step: nat, approve: bool)
    | Pause
    | Resume
    | Cancel
    | Retry(step: nat, force: bool, now: int)
    | StartRollback(now: int)

  /** The statuses that let the next step of the lane start. */
  predicate Finished(status: StepStatus) {
    status.Completed? || status.Skipped? || status.RolledBack?
  }

  /** The statuses that finalisation does not count as remaining. */
  predicate Settled(status: StepStatus) {
    Finished(status) || status.Canceled?
  }

  predicate Leased(status: StepStatus) {
    status.Running? || status.RollingBack?
  }

  predicate HeldBy(s: Step, worker: string) {
    s.lease.Some? && s.lease.value.owner == worker
  }

  predicate AwaitsDecision(s: Step) {
    s.approval.Some? && s.approval.value.status.ApprovalPending?
  }

  predicate AllSettled(steps: seq<Step>) {
    forall i | 0 <= i < |steps| :: Settled(steps[i].status)
  }

  // ---- Starting an execution -------------------------------------------------------------

  function ForwardKey(id: string, stepId: string): string {
    "runbook:" + id + ":step:" + stepId
  }

  function CompensationKey(id: string, stepKey: string): string {
    "runbook:" + id + ":" + stepKey
  }

  function ForwardSpec(id: string, d: StepDef, position: nat): StepSpec
    requires ParsedAttempts(d.maxAttempts).Some?
  {
    StepSpec(d.id, d.kind, d.rollback, false, position, None,
             ParsedAttempts(d.maxAttempts).value, ForwardKey(id, d.id))
  }

  function CompensationSpec(id: string, sourceKey: string, action: ActionDef, source: nat, position: nat): StepSpec
    requires ParsedAttempts(action.maxAttempts).Some?
  {
    var key := "rollback-" + sourceKey;
    StepSpec(key, action.kind, None, true, position, Some(source),
             ParsedAttempts(action.maxAttempts).value, CompensationKey(id, key))
  }

  function Fresh(spec: StepSpec, now: int): Step {
    Step(spec, Pending, 0, None, now, 0, None, 0)
  }

  function Start(id: string, runbook: seq<StepDef>, now: int): Execution
    requires ValidDocument(runbook)
  {
    Execution(id, runbook, ExecRunning, false,
              seq(|runbook|, i requires 0 <= i < |runbook| => Fresh(ForwardSpec(id, runbook[i], i), now)), [])
  }

  // ---- Claim, completion, recovery -------------------------------------------------------

  predicate Claimable(e: Execution, i: nat, now: int) {
    && i < |e.steps|
    && !e.cancelRequested
    && (e.steps[i].status.Pending? || e.steps[i].status.Retrying?)
    && e.steps[i].nextAttemptAt <= now
    && (if e.steps[i].spec.isRollback then e.status.ExecRollingBack? else e.status.ExecRunning?)
    && (forall p | 0 <= p < |e.steps| ::
          e.steps[p].spec.isRollback == e.steps[i].spec.isRollback
          && e.steps[p].spec.position < e.steps[i].spec.position
          ==> Finished(e.steps[p].status))
  }

  function SetStep(e: Execution, i: nat, s: Step): Execution
    requires i < |e.steps|
  {
    e.(steps := e.steps[i := s])
  }

  function ClaimStep(e: Execution, i: nat, worker: string, now: int, leaseUntil: int): Outcome {
    if !Claimable(e, i, now) then Aborted(NotClaimable) else
    var s := e.steps[i];
    Committed(SetStep(e, i, s.(status := if s.spec.isRollback then RollingBack else Running,
                               lease := Some(Lease(worker, leaseUntil)),
                               attempts := s.attempts + 1))
              .(claims := e.claims + [ClaimRecord(i, s.attempts + 1, worker)]))
  }

  function Finalize(e: Execution): Execution {
    if AllSettled(e.steps) && (e.status.ExecRunning? || e.status.ExecRollingBack?)
    then e.(status := if e.status.ExecRollingBack? then ExecRolledBack else ExecCompleted)
    else e
  }

  function SuccessStatus(requested: StepStatus): StepStatus {
    if Finished(requested) then requested else Completed
  }

  /** The step row is fenced by its lease; the execution row is not. */
  function CompleteStep(e: Execution, i: nat, worker: string, report: Report, retryAt: int): Outcome {
    if i >= |e.steps| then Aborted(NotFound) else
    var s := e.steps[i];
    if !Leased(s.status) then Aborted(StepNotRunning) else
    match report
    case Success(requested) =>
      Committed(Finalize(
        if HeldBy(s, worker) then SetStep(e, i, s.(status := SuccessStatus(requested), lease := None)) else e))
    case Failure =>
      if s.attempts < s.spec.maxAttempts then
        Committed(if HeldBy(s, worker)
                  then SetStep(e, i, s.(status := Retrying, nextAttemptAt := retryAt, lease := None)) else e)
      else
        Committed((if HeldBy(s, worker) then SetStep(e, i, s.(status := Failed, lease := None)) else e)
                  .(status := ExecFailed))
  }

  function MarkStepAmbiguous(e: Execution, i: nat, worker: string): Outcome {
    if i >= |e.steps| || !HeldBy(e.steps[i], worker) || !Leased(e.steps[i].status) then Aborted(LeaseLost) else
    Committed(SetStep(e, i, e.steps[i].(status := Ambiguous, lease := None)).(status := ExecAmbiguous))
  }

  predicate Expired(s: Step, now: int) {
    Leased(s.status) && s.lease.Some? && s.lease.value.expiresAt <= now
  }

  function RecoverStep(e: Execution, i: nat, now: int): Outcome {
    if i >= |e.steps| || !Expired(e.steps[i], now) then Aborted(LeaseNotExpired) else
    var s := e.steps[i];
    var retry := SafeReplay(s.spec.kind) && s.attempts < s.spec.maxAttempts;
    Committed(SetStep(e, i, s.(status := if retry then Retrying else Ambiguous, lease := None, nextAttemptAt := now))
              .(status := if retry then ExecRunning else ExecAmbiguous))
  }

  // ---- Waits and approvals ---------------------------------------------------------------

  function ScheduleStepWait(e: Execution, i: nat, worker: string, until: int): Outcome {
    if i >= |e.steps| || !HeldBy(e.steps[i], worker) || !e.steps[i].status.Running? then Aborted(LeaseLost) else
    Committed(SetStep(e, i, e.steps[i].(status := Waiting, waitUntil := until, nextAttemptAt := until, lease := None)))
  }

  function FireStepTimer(e: Execution, i: nat, now: int): Outcome {
    if i >= |e.steps| || !e.steps[i].status.Waiting? || e.steps[i].waitUntil > now then Aborted(TimerNotDue) else
    Committed(Finalize(SetStep(e, i, e.steps[i].(status := Completed))))
  }

  predicate ApprovalDue(s: Step, now: int) {
    AwaitsDecision(s) && s.approval.value.expiresAt.Some? && s.approval.value.expiresAt.value <= now
  }

  function ExpireStepApproval(e: Execution, i: nat, now: int): Outcome {
    if i >= |e.steps| || !ApprovalDue(e.steps[i], now) then Aborted(ApprovalNotDue) else
    var s := e.steps[i];
    Committed(SetStep(e, i, s.(status := Failed, approval := Some(s.approval.value.(status := ApprovalExpired))))
              .(status := ExecFailed))
  }

  /** An approval row that already exists is returned as it is, whatever was decided on it. */
  function OpenStepApproval(e: Execution, i: nat, worker: string, expiresAt: Option<int>): Outcome {
    if i >= |e.steps| || !HeldBy(e.steps[i], worker) then Aborted(LeaseLost) else
    var s := e.steps[i];
    var approval := if s.approval.Some? then s.approval else Some(ApprovalRow(ApprovalPending, expiresAt));
    Committed(SetStep(e, i, s.(status := WaitingApproval, approval := approval, lease := None))
              .(status := ExecWaitingApproval))
  }

  /** The decision looks at the approval row only, not at the status of the step or the execution. */
  function DecideStep(e: Execution, i: nat, approve: bool): Outcome {
    if i >= |e.steps| || e.steps[i].approval.None? then Aborted(NotFound) else
    if !AwaitsDecision(e.steps[i]) then Aborted(AlreadyDecided) else
    var s := e.steps[i];
    if approve then
      Committed(Finalize(
        SetStep(e, i, s.(status := Completed, approval := Some(s.approval.value.(status := ApprovalApproved))))
        .(status := ExecRunning)))
    else
      Committed(SetStep(e, i, s.(status := Failed, approval := Some(s.approval.value.(status := ApprovalRejected))))
                .(status := ExecFailed))
  }

  // ---- Operator commands -----------------------------------------------------------------

  function PauseExecution(e: Execution): Outcome {
    if !e.status.ExecRunning? then Aborted(NotPausable) else Committed(e.(status := ExecPaused))
  }

  function ResumeExecution(e: Execution): Outcome {
    if !e.status.ExecPaused? then Aborted(NotPaused) else Committed(e.(status := ExecRunning))
  }

  function CancelStep(s: Step): Step {
    if s.status.Pending? || s.status.Retrying? || s.status.Waiting? || s.status.WaitingApproval?
    then s.(status := Canceled, lease := None) else s
  }

  function CancelExecution(e: Execution): Outcome {
    if e.status.ExecCompleted? || e.status.ExecCanceled? || e.status.ExecRolledBack? then Aborted(AlreadyTerminal)
    else Committed(e.(status := ExecCanceled, cancelRequested := true,
                      steps := seq(|e.steps|, i requires 0 <= i < |e.steps| => CancelStep(e.steps[i]))))
  }

  function RetryStep(e: Execution, i: nat, force: bool, now: int): Outcome {
    if i >= |e.steps| then Aborted(NotFound) else
    var s := e.steps[i];
    if !s.status.Failed? && !s.status.Ambiguous? then Aborted(NotRetryable) else
    if s.status.Ambiguous? && !SafeReplay(s.spec.kind) && !force then Aborted(ForceRequired) else
    Committed(SetStep(e, i, s.(status := Retrying, nextAttemptAt := now, lease := None, retries := s.retries + 1))
              .(status := ExecRunning))
  }

  predicate HasRollback(e: Execution) {
    exists i | 0 <= i < |e.steps| :: e.steps[i].spec.isRollback
  }

  predicate Compensable(s: Step) {
    !s.spec.isRollback && s.status.Completed? && s.spec.rollback.Some?
  }

  /** The compensable steps below index `n`, from the highest position down. */
  function Sources(steps: seq<Step>, n: nat): (sources: seq<nat>)
    requires n <= |steps|
    ensures forall j | 0 <= j < |sources| :: sources[j] < n && Compensable(steps[sources[j]])
    ensures forall j, k | 0 <= j < k < |sources| :: sources[k] < sources[j]
    ensures forall i | 0 <= i < n && Compensable(steps[i]) :: i in sources
  {
    if n == 0 then [] else
    (if Compensable(steps[n - 1]) then [n - 1] else []) + Sources(steps, n - 1)
  }

  /** The unique constraint on (execution_id, step_key) would reject some row of the plan. */
  predicate KeyClash(steps: seq<Step>, sources: seq<nat>)
    requires forall j | 0 <= j < |sources| :: sources[j] < |steps|
  {
    exists i, j | 0 <= i < |steps| && 0 <= j < |sources| ::
      steps[i].spec.key == "rollback-" + steps[sources[j]].spec.key
  }

  predicate Parsable(steps: seq<Step>, sources: seq<nat>)
    requires forall j | 0 <= j < |sources| :: sources[j] < |steps|
  {
    forall j | 0 <= j < |sources| ::
      Compensable(steps[sources[j]]) && ParsedAttempts(steps[sources[j]].spec.rollback.value.maxAttempts).Some?
  }

  function Plan(e: Execution, sources: seq<nat>, now: int): seq<Step>
    requires forall j | 0 <= j < |sources| :: sources[j] < |e.steps|
    requires Parsable(e.steps, sources)
  {
    seq(|sources|, j requires 0 <= j < |sources| =>
      Fresh(CompensationSpec(e.id, e.steps[sources[j]].spec.key, e.steps[sources[j]].spec.rollback.value, sources[j], j), now))
  }

  function StartExecutionRollback(e: Execution, now: int): Outcome {
    if !e.status.ExecCompleted? && !e.status.ExecFailed? && !e.status.ExecAmbiguous? then Aborted(NotRollbackable) else
    if HasRollback(e) then Aborted(RollbackExists) else
    var sources := Sources(e.steps, |e.steps|);
    if sources == [] then Aborted(NothingToRollBack) else
    if !Parsable(e.steps, sources) || KeyClash(e.steps, sources) then Aborted(PlanRejected) else
    Committed(e.(steps := e.steps + Plan(e, sources, now), status := ExecRollingBack))
  }

  // ---- Runs ------------------------------------------------------------------------------

  function Next(e: Execution, a: Action): Outcome {
    match a
    case Claim(i, worker, now, leaseUntil) => ClaimStep(e, i, worker, now, leaseUntil)
    case Complete(i, worker, report, retryAt) => CompleteStep(e, i, worker, report, retryAt)
    case MarkAmbiguous(i, worker) => MarkStepAmbiguous(e, i, worker)
    case Recover(i, now) => RecoverStep(e, i, now)
    case ScheduleWait(i, worker, until) => ScheduleStepWait(e, i, worker, until)
    case FireTimer(i, now) => FireStepTimer(e, i, now)
    case ExpireApproval(i, now) => ExpireStepApproval(e, i, now)
    case OpenApproval(i, worker, expiresAt) => OpenStepApproval(e, i, worker, expiresAt)
    case Decide(i, approve) => DecideStep(e, i, approve)
    case Pause => PauseExecution(e)
    case Resume => ResumeExecution(e)
    case Cancel => CancelExecution(e)
    case Retry(i, force, now) => RetryStep(e, i, force, now)
    case StartRollback(now) => StartExecutionRollback(e, now)
  }

  /** A transaction that is rolled back changes nothing. */
  function Apply(e: Execution, a: Action): Execution {
    var out := Next(e, a);
    if out.Committed? then out.after else e
  }

  function Run(e: Execution, actions: seq<Action>): Execution
    decreases |actions|
  {
    if actions == [] then e else Run(Apply(e, actions[0]), actions[1..])
  }

  /** An operator's retry of step `i`, with or without force. */
  predicate Retries(a: Action, i: nat, force: bool) {
    a.Retry? && a.step == i && a.force == force
  }

  /** The commands that only an operator issues. */
  predicate IsControl(a: Action) {
    a.Pause? || a.Resume? || a.Cancel? || a.Retry? || a.StartRollback?
  }

  predicate ControlFree(actions: seq<Action>) {
    forall k | 0 <= k < |actions| :: !IsControl(actions[k])
  }

  lemma {:induction false} RunConcat(e: Execution, first: seq<Action>, second: seq<Action>)
    ensures Run(e, first + second) == Run(Run(e, first), second)
    decreases |first|
  {
    if first == [] {
      assert first + second == second;
    } else {
      assert (first + second)[1..] == first[1..] + second;
      RunConcat(Apply(e, first[0]), first[1..], second);
    }
  }

  lemma {:induction false} RunThen(e: Execution, actions: seq<Action>, a: Action)
    ensures Run(e, actions + [a]) == Apply(Run(e, actions), a)
  {
    RunConcat(e, actions, [a]);
  }

  lemma {:induction false} RunOfThree(e: Execution, a: Action, b: Action, c: Action)
    ensures Run(e, [a, b, c]) == Apply(Apply(Apply(e, a), b), c)
  {
    var e' := Apply(e, a);
    assert [a, b, c][1..] == [b, c];
    assert [b, c][1..] == [c];
    assert Run(Apply(e', b), [c]) == Apply(Apply(e', b), c);
  }
}
