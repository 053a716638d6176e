/** Executions that no operator touches: their status, their progress and their end. */
module RunbookProgress {
  import opened Base
  import opened Documents
  import opened Runbook
  import opened RunbookSafety
  import opened RunbookTheorems

  /** The status that the first unfinished step dictates. */
  ghost predicate StatusFits(s: Step, status: ExecutionStatus) {
    match s.status
    case Pending => status.ExecRunning? && s.approval.None?
    case Running => status.ExecRunning? && s.approval.None?
    case Retrying => status.ExecRunning? && s.approval.None?
    case Waiting => status.ExecRunning? && s.approval.None?
    case WaitingApproval => status.ExecWaitingApproval? && AwaitsDecision(s)
    case Failed => status.ExecFailed?
    case Ambiguous => status.ExecAmbiguous?
    case _ => false
  }

  /** Steps before `k` are finished, steps after it are untouched, and the status fits step `k`. */
  ghost predicate AgreesAt(e: Execution, k: nat) {
    && k <= |e.steps|
    && !e.cancelRequested
    && (forall i | 0 <= i < |e.steps| :: !e.steps[i].spec.isRollback)
    && (forall i | 0 <= i < k :: Finished(e.steps[i].status))
    && (forall i | k < i < |e.steps| :: e.steps[i].status.Pending?)
    && (if k == |e.steps| then e.status.ExecCompleted? else StatusFits(e.steps[k], e.status))
  }

  ghost predicate Agrees(e: Execution) {
    exists k: nat :: AgreesAt(e, k)
  }

  /** The report does not come from a worker that lost its lease on the step's last attempt. */
  predicate Current(e: Execution, a: Action) {
    a.Complete? && a.report.Failure? && a.step < |e.steps| && e.steps[a.step].attempts >= e.steps[a.step].spec.maxAttempts
    ==> HeldBy(e.steps[a.step], a.worker)
  }

  /** Every report of the run is current when it arrives. */
  predicate CurrentRun(e: Execution, actions: seq<Action>)
    decreases |actions|
  {
    actions == [] || (Current(e, actions[0]) && CurrentRun(Apply(e, actions[0]), actions[1..]))
  }

  lemma OnlyFrontierActs(e: Execution, k: nat, a: Action)
    requires ExecutionOk(e) && AgreesAt(e, k)
    requires !IsControl(a) && Next(e, a).Committed?
    ensures a.step == k < |e.steps|
  {
  }

  /** What the transaction leaves behind in the row and in the execution's status fits together. */
  ghost predicate Fits(e: Execution, k: nat) {
    && k < |e.steps|
    && if Finished(e.steps[k].status)
       then e.status == if AllSettled(e.steps) then ExecCompleted else ExecRunning
       else StatusFits(e.steps[k], e.status)
  }

  lemma CompletionFits(e: Execution, k: nat, a: Action)
    requires k < |e.steps| && StepOk(e.steps[k], e.cancelRequested) && !e.steps[k].spec.isRollback
    requires StatusFits(e.steps[k], e.status)
    requires a.Complete? && a.step == k && Next(e, a).Committed? && Current(e, a)
    ensures Fits(Next(e, a).after, k)
  {
  }

  lemma WorkerFits(e: Execution, k: nat, a: Action)
    requires k < |e.steps| && StepOk(e.steps[k], e.cancelRequested) && !e.steps[k].spec.isRollback
    requires StatusFits(e.steps[k], e.status)
    requires !IsControl(a) && a.step == k && Next(e, a).Committed? && Current(e, a)
    ensures Fits(Next(e, a).after, k)
  {
    if a.Complete? { CompletionFits(e, k, a); }
  }

  lemma OneRowFrame(e: Execution, a: Action)
    requires StepsOk(e.steps, e.cancelRequested) && !IsControl(a) && Next(e, a).Committed?
    ensures a.step < |e.steps| == |Next(e, a).after.steps|
    ensures Next(e, a).after.cancelRequested == e.cancelRequested
    ensures Next(e, a).after.steps == e.steps[a.step := Next(e, a).after.steps[a.step]]
    ensures Next(e, a).after.steps[a.step].spec == e.steps[a.step].spec
  {
    if WritesOneRow(a) { WriteIsLawful(e, a); }
  }

  lemma FrontierMoves(e: Execution, k: nat, e': Execution)
    requires AgreesAt(e, k) && k < |e.steps| == |e'.steps| && StepsOk(e.steps, e.cancelRequested)
    requires e'.steps == e.steps[k := e'.steps[k]] && e'.steps[k].spec == e.steps[k].spec
    requires e'.cancelRequested == e.cancelRequested && Fits(e', k)
    ensures AgreesAt(e', k) || AgreesAt(e', k + 1)
  {
  }

  lemma AgreementStep(e: Execution, k: nat, a: Action)
    requires ExecutionOk(e) && AgreesAt(e, k) && !IsControl(a) && Current(e, a)
    ensures AgreesAt(Apply(e, a), k) || AgreesAt(Apply(e, a), k + 1)
  {
    if Next(e, a).Committed? {
      OnlyFrontierActs(e, k, a);
      WorkerFits(e, k, a);
      OneRowFrame(e, a);
      FrontierMoves(e, k, Next(e, a).after);
    }
  }

  lemma {:induction false} AgreementRun(e: Execution, actions: seq<Action>)
    requires ExecutionOk(e) && Agrees(e) && ControlFree(actions) && CurrentRun(e, actions)
    ensures ExecutionOk(Run(e, actions)) && Agrees(Run(e, actions))
    decreases |actions|
  {
    if actions != [] {
      var k: nat :| AgreesAt(e, k);
      AgreementStep(e, k, actions[0]);
      NextOk(e, actions[0]);
      AgreementRun(Apply(e, actions[0]), actions[1..]);
    }
  }

  /** From the start the execution's status always agrees with its steps. */
  lemma {:induction false} StatusAgrees(id: string, runbook: seq<StepDef>, now: int, actions: seq<Action>)
    requires ValidDocument(runbook) && ControlFree(actions) && CurrentRun(Start(id, runbook, now), actions)
    ensures Agrees(Reached(id, runbook, now, actions))
  {
    StartOk(id, runbook, now);
    assert AgreesAt(Start(id, runbook, now), 0);
    AgreementRun(Start(id, runbook, now), actions);
  }

  /**
   * The execution row is not fenced: a failure report keeps the status in agreement if and only
   * if it comes from the lease holder or the step has attempts left.
   */
  lemma StaleFailureBreaksAgreement(e: Execution, i: nat, worker: string, retryAt: int)
    requires ExecutionOk(e) && Agrees(e) && i < |e.steps| && Leased(e.steps[i].status)
    ensures Agrees(Apply(e, Complete(i, worker, Failure, retryAt))) <==>
            HeldBy(e.steps[i], worker) || e.steps[i].attempts < e.steps[i].spec.maxAttempts
  {
    var k: nat :| AgreesAt(e, k);
    var a := Complete(i, worker, Failure, retryAt);
    OnlyFrontierActs(e, k, a);
    if HeldBy(e.steps[i], worker) || e.steps[i].attempts < e.steps[i].spec.maxAttempts {
      AgreementStep(e, k, a);
    } else {
      var e' := Apply(e, a);
      assert e' == e.(status := ExecFailed);
      forall m: nat ensures !AgreesAt(e', m) {
        if m < k { assert Finished(e'.steps[m].status); }
      }
    }
  }

  // ---- Progress ---------------------------------------------------------------------------

  lemma FrontierClaimable(e: Execution, k: nat)
    requires ExecutionOk(e) && AgreesAt(e, k) && k < |e.steps|
    requires e.steps[k].status.Pending? || e.steps[k].status.Retrying?
    ensures Claimable(e, k, e.steps[k].nextAttemptAt)
  {
  }

  /** An execution that has not ended always has a transaction that moves its current step. */
  lemma Progress(e: Execution, k: nat) returns (a: Action)
    requires ExecutionOk(e) && AgreesAt(e, k)
    requires e.status.ExecRunning? || e.status.ExecWaitingApproval?
    ensures !IsControl(a) && Current(e, a) && Next(e, a).Committed? && Apply(e, a).steps != e.steps
  {
    assert k < |e.steps|;
    var s := e.steps[k];
    if s.status.Running? {
      a := Recover(k, s.lease.value.expiresAt);
    } else if s.status.Waiting? {
      a := FireTimer(k, s.waitUntil);
    } else if s.status.WaitingApproval? {
      a := Decide(k, true);
    } else {
      a := Claim(k, "worker", s.nextAttemptAt, s.nextAttemptAt);
      FrontierClaimable(e, k);
    }
    assert Next(e, a).Committed?;
    assert Apply(e, a).steps[k] != s;
  }

  // ---- Termination ------------------------------------------------------------------------

  function Rank(status: StepStatus): nat {
    match status
    case Running => 3
    case RollingBack => 3
    case Pending => 2
    case Retrying => 2
    case Waiting => 2
    case WaitingApproval => 2
    case Canceled => 1
    case _ => 0
  }

  /** Twice the attempts a step has left, plus the rank of its status. */
  function Potential(s: Step): int {
    2 * (s.spec.maxAttempts + s.retries - s.attempts) + Rank(s.status)
  }

  function TotalPotential(steps: seq<Step>): int {
    if steps == [] then 0 else TotalPotential(steps[..|steps| - 1]) + Potential(steps[|steps| - 1])
  }

  lemma {:induction false} PotentialUpdate(steps: seq<Step>, i: nat, s: Step)
    requires i < |steps|
    ensures TotalPotential(steps[i := s]) == TotalPotential(steps) - Potential(steps[i]) + Potential(s)
  {
    var last := |steps| - 1;
    if i == last {
      assert steps[i := s][..last] == steps[..last];
    } else {
      assert steps[i := s][..last] == steps[..last][i := s];
      PotentialUpdate(steps[..last], i, s);
    }
  }

  lemma {:induction false} PotentialNonNegative(steps: seq<Step>, cancelRequested: bool)
    requires StepsOk(steps, cancelRequested)
    ensures TotalPotential(steps) >= 0
  {
    if steps != [] {
      PotentialNonNegative(steps[..|steps| - 1], cancelRequested);
      assert StepOk(steps[|steps| - 1], cancelRequested);
    }
  }

  lemma CompletionDrops(e: Execution, a: Action)
    requires a.Complete? && Next(e, a).Committed? && a.step < |e.steps| && StepOk(e.steps[a.step], e.cancelRequested)
    requires a.step < |Next(e, a).after.steps| && Next(e, a).after.steps[a.step] != e.steps[a.step]
    ensures Potential(Next(e, a).after.steps[a.step]) < Potential(e.steps[a.step])
  {
  }

  lemma RowPotentialDrops(e: Execution, a: Action)
    requires !IsControl(a) && Next(e, a).Committed? && a.step < |e.steps| && StepOk(e.steps[a.step], e.cancelRequested)
    requires a.step < |Apply(e, a).steps| && Apply(e, a).steps[a.step] != e.steps[a.step]
    ensures Potential(Apply(e, a).steps[a.step]) < Potential(e.steps[a.step])
  {
    if a.Complete? {
      CompletionDrops(e, a);
      hide Next;
    }
  }

  /** Every transaction that changes a step, outside operator commands, uses up potential. */
  lemma PotentialDrops(e: Execution, a: Action)
    requires StepsOk(e.steps, e.cancelRequested) && !IsControl(a) && Apply(e, a).steps != e.steps
    ensures TotalPotential(Apply(e, a).steps) < TotalPotential(e.steps)
  {
    OneRowFrame(e, a);
    RowPotentialDrops(e, a);
    PotentialUpdate(e.steps, a.step, Apply(e, a).steps[a.step]);
  }

  /** The number of transactions of the run that change a step. */
  function StepChanges(e: Execution, actions: seq<Action>): nat
    decreases |actions|
  {
    if actions == [] then 0 else
    (if Apply(e, actions[0]).steps != e.steps then 1 else 0) + StepChanges(Apply(e, actions[0]), actions[1..])
  }

  lemma {:induction false} RunsAreBounded(e: Execution, actions: seq<Action>)
    requires ExecutionOk(e) && ControlFree(actions)
    ensures StepChanges(e, actions) <= TotalPotential(e.steps)
    decreases |actions|
  {
    if actions == [] {
      PotentialNonNegative(e.steps, e.cancelRequested);
    } else {
      if Apply(e, actions[0]).steps != e.steps { PotentialDrops(e, actions[0]); }
      NextOk(e, actions[0]);
      RunsAreBounded(Apply(e, actions[0]), actions[1..]);
    }
  }

  lemma {:induction false} FreshPotential(steps: seq<Step>)
    requires forall i | 0 <= i < |steps| :: Potential(steps[i]) <= 22
    ensures TotalPotential(steps) <= 22 * |steps|
  {
    if steps != [] { FreshPotential(steps[..|steps| - 1]); }
  }

  /** With at most ten attempts a step, a run without operator commands changes steps at most 22 times each. */
  lemma {:induction false} UntouchedRunsEnd(id: string, runbook: seq<StepDef>, now: int, actions: seq<Action>)
    requires ValidDocument(runbook) && ControlFree(actions)
    ensures StepChanges(Start(id, runbook, now), actions) <= 22 * |runbook|
  {
    StartOk(id, runbook, now);
    RunsAreBounded(Start(id, runbook, now), actions);
    FreshPotential(Start(id, runbook, now).steps);
  }

  // ---- Runs with operator commands -----------------------------------------------------------

  lemma {:induction false} PotentialAppend(steps: seq<Step>, rows: seq<Step>)
    ensures TotalPotential(steps + rows) == TotalPotential(steps) + TotalPotential(rows)
    decreases |rows|
  {
    if rows == [] {
      assert steps + rows == steps;
    } else {
      assert (steps + rows)[..|steps + rows| - 1] == steps + rows[..|rows| - 1];
      PotentialAppend(steps, rows[..|rows| - 1]);
    }
  }

  lemma CancelRowDrops(s: Step)
    ensures Potential(CancelStep(s)) + (if CancelStep(s) != s then 1 else 0) <= Potential(s)
  {
  }

  /** Cancelling uses up potential too, unless it changes no row. */
  lemma {:induction false} CancelDrops(steps: seq<Step>, rows: seq<Step>)
    requires |rows| == |steps| && forall i | 0 <= i < |steps| :: rows[i] == CancelStep(steps[i])
    ensures TotalPotential(rows) + (if rows != steps then 1 else 0) <= TotalPotential(steps)
    decreases |steps|
  {
    hide CancelStep;
    hide Potential;
    if steps != [] {
      var n := |steps| - 1;
      CancelDrops(steps[..n], rows[..n]);
      CancelRowDrops(steps[n]);
      assert steps == steps[..n] + [steps[n]] && rows == rows[..n] + [rows[n]];
    }
  }

  predicate CommitsRetry(e: Execution, a: Action) {
    a.Retry? && Next(e, a).Committed?
  }

  function RetryCount(e: Execution, actions: seq<Action>): nat
    decreases |actions|
  {
    if actions == [] then 0 else
    (if CommitsRetry(e, actions[0]) then 1 else 0) + RetryCount(Apply(e, actions[0]), actions[1..])
  }

  /** What a transaction uses up, what a retry gives back and what a new row brings in. */
  ghost predicate Accounted(e: Execution, a: Action) {
    && |e.steps| <= |Apply(e, a).steps|
    && (if Apply(e, a).steps != e.steps then 1 else 0) + TotalPotential(Apply(e, a).steps)
       <= TotalPotential(e.steps) + 23 * (|Apply(e, a).steps| - |e.steps|) + (if CommitsRetry(e, a) then 5 else 0)
  }

  lemma RetryAccounted(e: Execution, i: nat, force: bool, now: int)
    requires Next(e, Retry(i, force, now)).Committed?
    ensures Accounted(e, Retry(i, force, now))
  {
    PotentialUpdate(e.steps, i, Apply(e, Retry(i, force, now)).steps[i]);
  }

  lemma RollbackAccounted(e: Execution, now: int)
    requires StartExecutionRollback(e, now).Committed?
    ensures Accounted(e, StartRollback(now))
  {
    var rows := RollbackAppendsPlan(e, now);
    PotentialAppend(e.steps, rows);
    FreshPotential(rows);
  }

  lemma CancelAccounted(e: Execution)
    requires CancelExecution(e).Committed?
    ensures Accounted(e, Cancel)
  {
    CancelDrops(e.steps, Apply(e, Cancel).steps);
  }

  lemma StepAccounted(e: Execution, a: Action)
    requires ExecutionOk(e)
    ensures Accounted(e, a)
  {
    if Next(e, a).Committed? {
      if a.Retry? {
        RetryAccounted(e, a.step, a.force, a.now);
      } else if a.StartRollback? {
        RollbackAccounted(e, a.now);
      } else if a.Cancel? {
        CancelAccounted(e);
      } else if !IsControl(a) {
        OneRowFrame(e, a);
        if Apply(e, a).steps != e.steps { PotentialDrops(e, a); }
        hide Next;
      }
    }
  }

  lemma {:induction false} CommandedRunsAreBounded(e: Execution, actions: seq<Action>)
    requires ExecutionOk(e)
    ensures |e.steps| <= |Run(e, actions).steps|
    ensures StepChanges(e, actions)
            <= TotalPotential(e.steps) + 23 * (|Run(e, actions).steps| - |e.steps|) + 5 * RetryCount(e, actions)
    decreases |actions|
  {
    hide Next;
    hide CommitsRetry;
    if actions == [] {
      PotentialNonNegative(e.steps, e.cancelRequested);
    } else {
      StepAccounted(e, actions[0]);
      NextOk(e, actions[0]);
      hide ExecutionOk;
      CommandedRunsAreBounded(Apply(e, actions[0]), actions[1..]);
    }
  }

  /** Whatever operators do, steps change at most 22 times each, 23 for a compensation, plus five times a committed retry. */
  lemma {:induction false} RunsEnd(id: string, runbook: seq<StepDef>, now: int, actions: seq<Action>)
    requires ValidDocument(runbook)
    ensures var e := Start(id, runbook, now);
            && |runbook| <= |Run(e, actions).steps|
            && StepChanges(e, actions)
               <= 22 * |runbook| + 23 * (|Run(e, actions).steps| - |runbook|) + 5 * RetryCount(e, actions)
  {
    StartOk(id, runbook, now);
    CommandedRunsAreBounded(Start(id, runbook, now), actions);
    FreshPotential(Start(id, runbook, now).steps);
  }

  // ---- Reaching an end -------------------------------------------------------------------------

  lemma ProgressStep(e: Execution) returns (a: Action)
    requires ExecutionOk(e) && Agrees(e) && (e.status.ExecRunning? || e.status.ExecWaitingApproval?)
    ensures !IsControl(a) && Current(e, a) && ExecutionOk(Apply(e, a)) && Agrees(Apply(e, a))
    ensures TotalPotential(Apply(e, a).steps) < TotalPotential(e.steps)
  {
    var k: nat :| AgreesAt(e, k);
    a := Progress(e, k);
    PotentialDrops(e, a);
    NextOk(e, a);
    AgreementStep(e, k, a);
  }

  lemma EndsOrRuns(e: Execution)
    requires Agrees(e)
    ensures e.status in {ExecRunning, ExecWaitingApproval, ExecCompleted, ExecFailed, ExecAmbiguous}
  {
  }

  /** An untouched execution can always be driven to an end without any operator command. */
  lemma RunsToAnEnd(e: Execution) returns (actions: seq<Action>)
    requires ExecutionOk(e) && Agrees(e)
    ensures ControlFree(actions) && CurrentRun(e, actions)
    ensures Run(e, actions).status in {ExecCompleted, ExecFailed, ExecAmbiguous}
    decreases TotalPotential(e.steps)
  {
    hide Next;
    hide Agrees;
    EndsOrRuns(e);
    PotentialNonNegative(e.steps, e.cancelRequested);
    if e.status.ExecRunning? || e.status.ExecWaitingApproval? {
      var a := ProgressStep(e);
      PotentialNonNegative(Apply(e, a).steps, Apply(e, a).cancelRequested);
      var rest := RunsToAnEnd(Apply(e, a));
      actions := [a] + rest;
      assert actions[1..] == rest;
    } else {
      actions := [];
    }
  }

  // ---- Where operator commands strand an execution ----------------------------------------

  /** Every step is finished, and still the execution is running or paused. */
  ghost predicate Stranded(e: Execution) {
    && ExecutionOk(e)
    && (forall i | 0 <= i < |e.steps| :: Finished(e.steps[i].status))
    && (e.status.ExecRunning? || e.status.ExecPaused?)
  }

  lemma StrandedStep(e: Execution, a: Action)
    requires Stranded(e) && !a.Cancel?
    ensures Stranded(Apply(e, a)) && Apply(e, a).steps == e.steps
  {
    NextOk(e, a);
    hide ExecutionOk;
    assert !a.Pause? && !a.Resume? ==> Next(e, a).Aborted?;
  }

  /** Only a cancel ends such an execution: no transaction finalises it again. */
  lemma {:induction false} StrandedForGood(e: Execution, actions: seq<Action>)
    requires Stranded(e) && Cancel !in actions
    ensures Stranded(Run(e, actions)) && Run(e, actions).steps == e.steps
    decreases |actions|
  {
    hide Next;
    if actions != [] {
      StrandedStep(e, actions[0]);
      hide Stranded;
      StrandedForGood(Apply(e, actions[0]), actions[1..]);
    }
  }

  lemma {:induction false} ReportWhilePaused(e: Execution, k: nat, worker: string)
    requires k < |e.steps| && e.status.ExecRunning? && e.steps[k].status.Running? && HeldBy(e.steps[k], worker)
    ensures Run(e, [Pause, Complete(k, worker, Success(Completed), 0), Resume])
            == SetStep(e, k, e.steps[k].(status := Completed, lease := None))
  {
    RunOfThree(e, Pause, Complete(k, worker, Success(Completed), 0), Resume);
  }

  /**
   * A step reported while the execution is paused is not finalised, and resuming does not do it
   * either: the status agrees again if and only if another step is left to run. After the last
   * step the execution stays running or paused in every run without a cancel.
   */
  lemma {:induction false} PauseStrandsLastStep(e: Execution, k: nat, worker: string, actions: seq<Action>)
    requires ExecutionOk(e) && AgreesAt(e, k) && k < |e.steps| && e.steps[k].status.Running? && HeldBy(e.steps[k], worker)
    requires Cancel !in actions
    ensures var e' := Run(e, [Pause, Complete(k, worker, Success(Completed), 0), Resume]);
            && (Agrees(e') <==> k + 1 < |e.steps|)
            && (k + 1 == |e.steps| ==>
                  && Run(e', actions).steps == e'.steps
                  && (Run(e', actions).status.ExecRunning? || Run(e', actions).status.ExecPaused?))
  {
    var e' := Run(e, [Pause, Complete(k, worker, Success(Completed), 0), Resume]);
    ReportWhilePaused(e, k, worker);
    RunOk(e, [Pause, Complete(k, worker, Success(Completed), 0), Resume]);
    if k + 1 < |e.steps| {
      assert AgreesAt(e', k + 1);
    } else {
      StrandedForGood(e', actions);
      forall m: nat ensures !AgreesAt(e', m) {
        assert m < |e.steps| ==> Finished(e'.steps[m].status);
      }
    }
  }

  lemma {:induction false} DecidedApprovalRests(e: Execution, i: nat, actions: seq<Action>)
    requires ExecutionOk(e) && i < |e.steps|
    requires e.steps[i].status.WaitingApproval? && !AwaitsDecision(e.steps[i])
    requires Cancel !in actions
    ensures i < |Run(e, actions).steps| && Run(e, actions).steps[i] == e.steps[i]
    decreases |actions|
  {
    if actions != [] {
      RowFrame(e, actions[0], i);
      NextOk(e, actions[0]);
      DecidedApprovalRests(Apply(e, actions[0]), i, actions[1..]);
    }
  }

  /**
   * Opening an approval reuses the row of an earlier one: the step awaits a decision if and only
   * if it never had one, and otherwise nothing but a cancellation moves it again.
   */
  lemma {:induction false} ReopenedApprovalStrands(e: Execution, i: nat, worker: string, expiresAt: Option<int>, actions: seq<Action>)
    requires ExecutionOk(e) && i < |e.steps| && HeldBy(e.steps[i], worker)
    ensures var e' := Apply(e, OpenApproval(i, worker, expiresAt));
            && (AwaitsDecision(e'.steps[i]) <==> e.steps[i].approval.None?)
            && (e.steps[i].approval.Some? && Cancel !in actions ==>
                  i < |Run(e', actions).steps| && Run(e', actions).steps[i] == e'.steps[i])
  {
    var e' := Apply(e, OpenApproval(i, worker, expiresAt));
    NextOk(e, OpenApproval(i, worker, expiresAt));
    if e.steps[i].approval.Some? && Cancel !in actions {
      DecidedApprovalRests(e', i, actions);
    }
  }
}
