/** Executions that can still complete: untouched ones, after a crash, and after an operator's retry. */
module RunbookCompletion {
  import opened Base
  import opened Documents
  import opened Runbook
  import opened RunbookSafety
  import opened RunbookTheorems
  import opened RunbookProgress
  import opened RunbookEffects

  /** Step `k` is the next to finish: it can be claimed, reported, timed or decided. */
  ghost predicate Open(s: Step, status: ExecutionStatus) {
    || (status == ExecRunning && s.status in {Pending, Retrying, Running, Waiting})
    || (status == ExecWaitingApproval && s.status == WaitingApproval && AwaitsDecision(s))
  }

  ghost predicate CompletableAt(e: Execution, k: nat) {
    && ExecutionOk(e) && k <= |e.steps| && !e.cancelRequested
    && (forall i | 0 <= i < |e.steps| :: !e.steps[i].spec.isRollback)
    && (forall i | 0 <= i < k :: Finished(e.steps[i].status))
    && (forall i | k < i < |e.steps| :: e.steps[i].status.Pending?)
    && (if k == |e.steps| then e.status.ExecCompleted? else Open(e.steps[k], e.status))
  }

  lemma NextIsClaimable(e: Execution, k: nat)
    requires CompletableAt(e, k) && k < |e.steps| && e.steps[k].status in {Pending, Retrying}
    ensures Claimable(e, k, e.steps[k].nextAttemptAt)
  {
    forall p | 0 <= p < |e.steps| && e.steps[p].spec.position < e.steps[k].spec.position
      ensures Finished(e.steps[p].status)
    {
      assert k < p ==> InOrder(e.steps[k], e.steps[p]);
    }
  }

  /** Once step `k` is finished the next one is open, or the execution is completed. */
  lemma StepFinishes(e: Execution, k: nat, e': Execution)
    requires CompletableAt(e, k) && k < |e.steps| == |e'.steps| && ExecutionOk(e')
    requires e' == e.(steps := e.steps[k := e'.steps[k]], status := e'.status)
    requires e'.steps[k].spec == e.steps[k].spec && e'.steps[k].status == Completed
    requires e'.status == if AllSettled(e'.steps) then ExecCompleted else ExecRunning
    ensures CompletableAt(e', k + 1)
  {
    hide ExecutionOk;
    assert k + 1 < |e.steps| ==> !Settled(e'.steps[k + 1].status);
    assert k + 1 == |e.steps| ==> AllSettled(e'.steps);
  }

  lemma ClaimNext(e: Execution, k: nat) returns (a: Action)
    requires CompletableAt(e, k) && k < |e.steps| && e.steps[k].status in {Pending, Retrying}
    ensures !IsControl(a) && CompletableAt(Apply(e, a), k) && Apply(e, a).steps != e.steps
  {
    a := Claim(k, "worker", e.steps[k].nextAttemptAt, e.steps[k].nextAttemptAt);
    NextIsClaimable(e, k);
    NextOk(e, a);
    hide ExecutionOk;
    assert Apply(e, a).steps[k] != e.steps[k];
  }

  /** The report, timer or decision that finishes step `k`. */
  function Finishing(s: Step, k: nat): Action {
    if s.status == Waiting then FireTimer(k, s.waitUntil)
    else if s.status == WaitingApproval then Decide(k, true)
    else Complete(k, if s.lease.Some? then s.lease.value.owner else "", Success(Completed), 0)
  }

  lemma FinishNext(e: Execution, k: nat)
    requires CompletableAt(e, k) && k < |e.steps| && e.steps[k].status !in {Pending, Retrying}
    ensures var a := Finishing(e.steps[k], k);
            !IsControl(a) && CompletableAt(Apply(e, a), k + 1) && Apply(e, a).steps != e.steps
  {
    var a := Finishing(e.steps[k], k);
    NextOk(e, a);
    assert StepOk(e.steps[k], e.cancelRequested);
    FinishWrites(e, k);
    assert Apply(e, a).steps[k] != e.steps[k];
    StepFinishes(e, k, Apply(e, a));
  }

  lemma FinishWrites(e: Execution, k: nat)
    requires k < |e.steps| && StepOk(e.steps[k], e.cancelRequested) && Open(e.steps[k], e.status)
    requires e.steps[k].status !in {Pending, Retrying}
    ensures var e' := Apply(e, Finishing(e.steps[k], k));
            && |e'.steps| == |e.steps| && e' == e.(steps := e.steps[k := e'.steps[k]], status := e'.status)
            && e'.steps[k].spec == e.steps[k].spec && e'.steps[k].status == Completed
            && e'.status == if AllSettled(e'.steps) then ExecCompleted else ExecRunning
  {
  }

  lemma CompletionStep(e: Execution, k: nat) returns (a: Action, k': nat)
    requires CompletableAt(e, k) && k < |e.steps|
    ensures !IsControl(a) && CompletableAt(Apply(e, a), k')
    ensures TotalPotential(Apply(e, a).steps) < TotalPotential(e.steps)
  {
    if e.steps[k].status in {Pending, Retrying} {
      a := ClaimNext(e, k);
      k' := k;
    } else {
      a := Finishing(e.steps[k], k);
      FinishNext(e, k);
      k' := k + 1;
    }
    hide Next;
    PotentialDrops(e, a);
  }

  lemma CompletesFrom(e: Execution, k: nat) returns (actions: seq<Action>)
    requires CompletableAt(e, k)
    ensures ControlFree(actions) && Run(e, actions).status == ExecCompleted
    decreases TotalPotential(e.steps)
  {
    hide Next;
    if k < |e.steps| {
      var a, k' := CompletionStep(e, k);
      PotentialNonNegative(e.steps, e.cancelRequested);
      PotentialNonNegative(Apply(e, a).steps, Apply(e, a).cancelRequested);
      hide CompletableAt;
      var rest := CompletesFrom(Apply(e, a), k');
      actions := [a] + rest;
      assert actions[1..] == rest;
    } else {
      actions := [];
    }
  }

  /** Some run without commands completes the execution. */
  ghost predicate CanComplete(e: Execution) {
    exists actions :: ControlFree(actions) && Run(e, actions).status == ExecCompleted
  }

  /** An untouched execution that is running or awaits an approval can complete, and one that failed or is ambiguous cannot. */
  lemma UntouchedCanCompleteIff(e: Execution)
    requires ExecutionOk(e) && Agrees(e)
    ensures CanComplete(e) <==> e.status in {ExecRunning, ExecWaitingApproval, ExecCompleted}
  {
    hide Next;
    hide ExecutionOk;
    var k: nat :| AgreesAt(e, k);
    EndsOrRuns(e);
    if e.status in {ExecRunning, ExecWaitingApproval, ExecCompleted} {
      assert CompletableAt(e, k);
      var actions := CompletesFrom(e, k);
    } else {
      RestingStepBlocks(e, k);
    }
  }

  /** A failed or ambiguous step rests without commands, and a completed execution has none. */
  lemma RestingStepBlocks(e: Execution, k: nat)
    requires ExecutionOk(e) && k < |e.steps| && e.steps[k].status in {Failed, Ambiguous}
    ensures !CanComplete(e)
  {
    forall actions | ControlFree(actions) ensures Run(e, actions).status != ExecCompleted {
      hide Next;
      FailedRestsUntilRetry(e, actions, k);
      RunOk(e, actions);
    }
  }

  /** A started execution offers its first step, from its start on, and no other. */
  lemma FirstStepIsDue(id: string, runbook: seq<StepDef>, now: int, i: nat, t: int)
    requires ValidDocument(runbook)
    ensures Claimable(Start(id, runbook, now), i, t) <==> i == 0 && now <= t
  {
    var e := Start(id, runbook, now);
    assert 0 < i < |e.steps| ==> e.steps[0].spec.position < e.steps[i].spec.position;
  }

  /** From the start on, as long as nobody interferes, completion is open until a step fails or becomes ambiguous. */
  lemma {:induction false} StartedCanComplete(id: string, runbook: seq<StepDef>, now: int, actions: seq<Action>)
    requires ValidDocument(runbook) && ControlFree(actions) && CurrentRun(Start(id, runbook, now), actions)
    ensures var e := Reached(id, runbook, now, actions);
            CanComplete(e) <==> forall i | 0 <= i < |e.steps| :: e.steps[i].status !in {Failed, Ambiguous}
  {
    hide Next;
    hide CanComplete;
    hide Run;
    var e := Reached(id, runbook, now, actions);
    StatusAgrees(id, runbook, now, actions);
    ReachedOk(id, runbook, now, actions);
    UntouchedCanCompleteIff(e);
    var k: nat :| AgreesAt(e, k);
  }

  /**
   * A worker that crashed is recovered once its lease is over: the execution can then complete by
   * itself if and only if the step may be sent again and has an attempt left.
   */
  lemma CrashCanCompleteIff(e: Execution, k: nat, now: int)
    requires ExecutionOk(e) && AgreesAt(e, k) && k < |e.steps| && e.steps[k].status == Running && LeaseOver(e.steps[k], now)
    ensures CanComplete(Apply(e, Recover(k, now))) <==> ShouldRetry(e.steps[k])
  {
    RecoverWrites(e, k, now);
    NextOk(e, Recover(k, now));
    hide Apply;
    hide ExecutionOk;
    var e' := Apply(e, Recover(k, now));
    if ShouldRetry(e.steps[k]) {
      assert CompletableAt(e', k);
      var actions := CompletesFrom(e', k);
    } else {
      RestingStepBlocks(e', k);
    }
  }

  /** Retrying the failed or ambiguous step reopens completion. */
  lemma RetryCanComplete(e: Execution, k: nat, force: bool, now: int)
    requires ExecutionOk(e) && AgreesAt(e, k) && k < |e.steps| && Next(e, Retry(k, force, now)).Committed?
    ensures CanComplete(Apply(e, Retry(k, force, now)))
    ensures Claimable(Apply(e, Retry(k, force, now)), k, now)
  {
    NextOk(e, Retry(k, force, now));
    RetryWrites(e, k, force, now);
    hide Apply;
    var e' := Apply(e, Retry(k, force, now));
    assert CompletableAt(e', k);
    NextIsClaimable(e', k);
    var actions := CompletesFrom(e', k);
  }

  lemma RetryWrites(e: Execution, k: nat, force: bool, now: int)
    requires k < |e.steps|
    ensures var s := e.steps[k];
            Next(e, Retry(k, force, now)).Committed? <==>
            s.status == Failed || (s.status == Ambiguous &&
              (force || s.spec.kind.Plugin? || (s.spec.kind.Http? && |s.spec.kind.idempotencyHeader| > 0)))
    ensures Next(e, Retry(k, force, now)).Committed? ==>
              Apply(e, Retry(k, force, now)) ==
              e.(steps := e.steps[k := e.steps[k].(status := Retrying, lease := None, nextAttemptAt := now,
                                                   retries := e.steps[k].retries + 1)],
                 status := ExecRunning)
  {
  }
}
