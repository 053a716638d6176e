/** What the joint invariant gives over whole runs of the runbook engine. */
module RunbookTheorems {
  import opened Documents
  import opened Runbook
  import opened RunbookSafety

  /** A transaction on one step leaves every other row alone; inserts only append. */
  lemma RowFrame(e: Execution, a: Action, i: nat)
    requires StepsOk(e.steps, e.cancelRequested) && i < |e.steps|
    ensures i < |Apply(e, a).steps|
    ensures Apply(e, a).steps[i].spec == e.steps[i].spec
    ensures a.Cancel? && Next(e, a).Committed? ==> Apply(e, a).steps[i] == CancelStep(e.steps[i])
    ensures !a.Cancel? && Apply(e, a).steps[i] != e.steps[i] ==> (a.Claim? || WritesOneRow(a)) && a.step == i
  {
    if Next(e, a).Committed? {
      if WritesOneRow(a) {
        WriteIsLawful(e, a);
      } else if a.StartRollback? {
        var rows := RollbackAppendsPlan(e, a.now);
      }
    }
  }

  /** Finished, failed and ambiguous rows change only by an operator's retry; finished ones never. */
  lemma RestingRow(e: Execution, a: Action, i: nat)
    requires ExecutionOk(e) && i < |e.steps|
    requires Finished(e.steps[i].status) || e.steps[i].status.Failed? || e.steps[i].status.Ambiguous?
    ensures i < |Apply(e, a).steps|
    ensures Apply(e, a).steps[i] == e.steps[i] || (a.Retry? && a.step == i && !Finished(e.steps[i].status))
    ensures Apply(e, a).steps[i] != e.steps[i] && e.steps[i].status.Ambiguous? && !SafeReplay(e.steps[i].spec.kind)
            ==> Retries(a, i, true)
  {
    RowFrame(e, a, i);
  }

  lemma ClaimFrame(e: Execution, a: Action)
    ensures Apply(e, a).claims == e.claims
            || (a.Claim? && Claimable(e, a.step, a.now)
                && Apply(e, a).claims == e.claims + [ClaimRecord(a.step, e.steps[a.step].attempts + 1, a.worker)])
  {
  }

  // ---- The invariant in every reachable state ---------------------------------------------

  /** The execution that `actions` makes of a freshly started runbook. */
  function Reached(id: string, runbook: seq<StepDef>, now: int, actions: seq<Action>): Execution
    requires ValidDocument(runbook)
  {
    Run(Start(id, runbook, now), actions)
  }

  lemma ReachedOk(id: string, runbook: seq<StepDef>, now: int, actions: seq<Action>)
    requires ValidDocument(runbook)
    ensures ExecutionOk(Reached(id, runbook, now, actions))
  {
    StartOk(id, runbook, now);
    RunOk(Start(id, runbook, now), actions);
  }

  lemma RowInvariant(id: string, runbook: seq<StepDef>, now: int, actions: seq<Action>, i: nat)
    requires ValidDocument(runbook) && i < |Reached(id, runbook, now, actions).steps|
    ensures var s := Reached(id, runbook, now, actions).steps[i];
            && (s.lease.Some? <==> s.status.Running? || s.status.RollingBack?)
            && (AwaitsDecision(s) ==> s.status.WaitingApproval? || s.status.Canceled?)
            && s.attempts <= s.spec.maxAttempts + s.retries
  {
    ReachedOk(id, runbook, now, actions);
  }

  /** A claimed step has only finished steps at lower positions of its lane. */
  lemma LaneDiscipline(id: string, runbook: seq<StepDef>, now: int, actions: seq<Action>, i: nat, j: nat)
    requires ValidDocument(runbook)
    requires i < |Reached(id, runbook, now, actions).steps| && j < |Reached(id, runbook, now, actions).steps|
    requires SameLane(Reached(id, runbook, now, actions).steps[i], Reached(id, runbook, now, actions).steps[j])
    requires i != j
    ensures var steps := Reached(id, runbook, now, actions).steps;
            && steps[i].spec.position != steps[j].spec.position
            && (steps[i].spec.position < steps[j].spec.position && steps[j].attempts > 0 ==> Finished(steps[i].status))
            && !(steps[i].attempts > 0 && !Finished(steps[i].status) && steps[j].attempts > 0 && !Finished(steps[j].status))
  {
    ReachedOk(id, runbook, now, actions);
    var steps := Reached(id, runbook, now, actions).steps;
    assert i < j ==> InOrder(steps[i], steps[j]);
    assert j < i ==> InOrder(steps[j], steps[i]);
  }

  /** No (step, attempt) is handed out twice, and no lane is ever claimed backwards. */
  lemma ClaimsAreUniqueAndOrdered(id: string, runbook: seq<StepDef>, now: int, actions: seq<Action>, k: nat, l: nat)
    requires ValidDocument(runbook) && k < l < |Reached(id, runbook, now, actions).claims|
    ensures var e := Reached(id, runbook, now, actions);
            var c, d := e.claims[k], e.claims[l];
            && c.step < |e.steps| && d.step < |e.steps|
            && (c.step, c.attempt) != (d.step, d.attempt)
            && (SameLane(e.steps[c.step], e.steps[d.step]) ==>
                  e.steps[c.step].spec.position <= e.steps[d.step].spec.position)
  {
    ReachedOk(id, runbook, now, actions);
    var e := Reached(id, runbook, now, actions);
    var c, d := e.claims[k], e.claims[l];
    assert ClaimInRange(e.steps, c) && ClaimInRange(e.steps, d);
    assert ClaimedAfter(e.steps, c, d);
    assert c.step < d.step ==> InOrder(e.steps[c.step], e.steps[d.step]);
  }

  lemma FinalMeansSettled(id: string, runbook: seq<StepDef>, now: int, actions: seq<Action>, i: nat)
    requires ValidDocument(runbook) && i < |Reached(id, runbook, now, actions).steps|
    requires Reached(id, runbook, now, actions).status in {ExecCompleted, ExecRolledBack}
    ensures var e := Reached(id, runbook, now, actions);
            Finished(e.steps[i].status) || (e.steps[i].status.Canceled? && e.cancelRequested)
  {
    ReachedOk(id, runbook, now, actions);
  }

  // ---- Who may change a row ---------------------------------------------------------------

  predicate ByHolder(a: Action, i: nat, owner: string) {
    (a.Complete? || a.MarkAmbiguous? || a.ScheduleWait? || a.OpenApproval?) && a.step == i && a.worker == owner
  }

  /** A leased row is written by its owner, or by recovery once the lease has expired. */
  lemma LeaseFence(e: Execution, a: Action, i: nat)
    requires ExecutionOk(e) && i < |e.steps| && e.steps[i].lease.Some?
    ensures i < |Apply(e, a).steps|
    ensures Apply(e, a).steps[i] != e.steps[i] ==>
              || ByHolder(a, i, e.steps[i].lease.value.owner)
              || (a.Recover? && a.step == i && e.steps[i].lease.value.expiresAt <= a.now)
  {
    RowFrame(e, a, i);
  }

  lemma {:induction false} FinishedForever(e: Execution, actions: seq<Action>, i: nat)
    requires ExecutionOk(e) && i < |e.steps| && Finished(e.steps[i].status)
    ensures i < |Run(e, actions).steps| && Run(e, actions).steps[i] == e.steps[i]
    decreases |actions|
  {
    if actions != [] {
      RestingRow(e, actions[0], i);
      NextOk(e, actions[0]);
      FinishedForever(Apply(e, actions[0]), actions[1..], i);
    }
  }

  /** Without an operator's retry of it a failed or ambiguous row keeps every column. */
  lemma {:induction false} FailedRestsUntilRetry(e: Execution, actions: seq<Action>, i: nat)
    requires ExecutionOk(e) && i < |e.steps| && (e.steps[i].status.Failed? || e.steps[i].status.Ambiguous?)
    requires forall k | 0 <= k < |actions| :: !Retries(actions[k], i, true)
    requires (e.steps[i].status.Ambiguous? && !SafeReplay(e.steps[i].spec.kind))
             || forall k | 0 <= k < |actions| :: !Retries(actions[k], i, false)
    ensures i < |Run(e, actions).steps| && Run(e, actions).steps[i] == e.steps[i]
    decreases |actions|
  {
    if actions != [] {
      RestingRow(e, actions[0], i);
      NextOk(e, actions[0]);
      FailedRestsUntilRetry(Apply(e, actions[0]), actions[1..], i);
    }
  }

  lemma {:induction false} ClaimsOnlyGrow(e: Execution, actions: seq<Action>)
    ensures e.claims <= Run(e, actions).claims
    decreases |actions|
  {
    if actions != [] {
      ClaimFrame(e, actions[0]);
      ClaimsOnlyGrow(Apply(e, actions[0]), actions[1..]);
    }
  }

  /**
   * An ambiguous step that is not safe to replay is claimed again only after a forced retry:
   * every claim a run without one adds is of another step.
   */
  lemma {:induction false} AmbiguousNeedsForce(e: Execution, actions: seq<Action>, i: nat)
    requires ExecutionOk(e) && i < |e.steps|
    requires e.steps[i].status.Ambiguous? && !SafeReplay(e.steps[i].spec.kind)
    requires forall k | 0 <= k < |actions| :: !Retries(actions[k], i, true)
    ensures e.claims <= Run(e, actions).claims
    ensures forall k | |e.claims| <= k < |Run(e, actions).claims| :: Run(e, actions).claims[k].step != i
    decreases |actions|
  {
    if actions != [] {
      var e' := Apply(e, actions[0]);
      RestingRow(e, actions[0], i);
      NextOk(e, actions[0]);
      ClaimFrame(e, actions[0]);
      AmbiguousNeedsForce(e', actions[1..], i);
      ClaimsOnlyGrow(e', actions[1..]);
    }
  }

  /** Once cancellation commits nothing is ever claimed again, whatever else commits. */
  lemma {:induction false} CancelIsFinal(e: Execution, actions: seq<Action>)
    requires e.cancelRequested
    ensures Run(e, actions).cancelRequested && Run(e, actions).claims == e.claims
    decreases |actions|
  {
    if actions != [] {
      ClaimFrame(e, actions[0]);
      CancelIsFinal(Apply(e, actions[0]), actions[1..]);
    }
  }

  // ---- When canceled is the last word --------------------------------------------------------

  /** A row that a worker's report, a recovery or an approval can still change. */
  predicate Unsettling(s: Step) {
    Leased(s.status) || AwaitsDecision(s)
  }

  /** A row that an operator can retry. */
  predicate Retryable(s: Step) {
    s.status.Failed? || s.status.Ambiguous?
  }

  ghost predicate Quiet(e: Execution, commands: bool) {
    && ExecutionOk(e) && e.status.ExecCanceled? && e.cancelRequested
    && forall i | 0 <= i < |e.steps| :: !Unsettling(e.steps[i]) && (commands ==> !Retryable(e.steps[i]))
  }

  lemma QuietStep(e: Execution, a: Action, commands: bool)
    requires Quiet(e, commands) && (IsControl(a) ==> commands)
    ensures Quiet(Apply(e, a), commands)
  {
    NextOk(e, a);
    assert !a.FireTimer? ==> Next(e, a).Aborted?;
  }

  lemma {:induction false} QuietRun(e: Execution, actions: seq<Action>, commands: bool)
    requires Quiet(e, commands) && (commands || ControlFree(actions))
    ensures Run(e, actions).status.ExecCanceled?
    decreases |actions|
  {
    hide Next;
    if actions != [] {
      QuietStep(e, actions[0], commands);
      hide Quiet;
      QuietRun(Apply(e, actions[0]), actions[1..], commands);
    }
  }

  /** One more transaction that takes the execution out of canceled. */
  lemma Unsettle(e: Execution, i: nat) returns (a: Action)
    requires ExecutionOk(e) && i < |e.steps| && (Unsettling(e.steps[i]) || Retryable(e.steps[i]))
    ensures !Apply(e, a).status.ExecCanceled?
    ensures Unsettling(e.steps[i]) ==> !IsControl(a)
  {
    var s := e.steps[i];
    a := if Leased(s.status) then MarkAmbiguous(i, s.lease.value.owner)
         else if AwaitsDecision(s) then Decide(i, false)
         else Retry(i, true, 0);
  }

  lemma CancelLeaves(e: Execution)
    requires ExecutionOk(e) && CancelExecution(e).Committed?
    ensures var e' := CancelExecution(e).after;
            && ExecutionOk(e') && e'.status.ExecCanceled? && e'.cancelRequested && |e'.steps| == |e.steps|
            && forall i | 0 <= i < |e.steps| ::
                 (Unsettling(e'.steps[i]) <==> Unsettling(e.steps[i])) && (Retryable(e'.steps[i]) <==> Retryable(e.steps[i]))
  {
    CancelOk(e);
  }

  /**
   * A committed cancel keeps the status canceled in every run without commands if and only if no
   * row is leased and none awaits a decision, and in every run at all if and only if, moreover,
   * no row is failed or ambiguous.
   */
  lemma CanceledStaysIff(e: Execution)
    requires ExecutionOk(e) && CancelExecution(e).Committed?
    ensures (forall actions | ControlFree(actions) :: Run(CancelExecution(e).after, actions).status.ExecCanceled?)
            <==> (forall i | 0 <= i < |e.steps| :: !Unsettling(e.steps[i]))
    ensures (forall actions :: Run(CancelExecution(e).after, actions).status.ExecCanceled?)
            <==> (forall i | 0 <= i < |e.steps| :: !Unsettling(e.steps[i]) && !Retryable(e.steps[i]))
  {
    hide Unsettling;
    hide Retryable;
    CancelLeaves(e);
    var e' := CancelExecution(e).after;
    hide CancelExecution;
    if i :| 0 <= i < |e.steps| && Unsettling(e.steps[i]) {
      var a := Unsettle(e', i);
      RunThen(e', [], a);
      assert ControlFree([a]) && !Run(e', [] + [a]).status.ExecCanceled?;
    } else {
      forall actions | ControlFree(actions) ensures Run(e', actions).status.ExecCanceled? {
        QuietRun(e', actions, false);
      }
      if i :| 0 <= i < |e.steps| && Retryable(e.steps[i]) {
        var a := Unsettle(e', i);
        RunThen(e', [], a);
        assert !Run(e', [] + [a]).status.ExecCanceled?;
      } else {
        forall actions ensures Run(e', actions).status.ExecCanceled? {
          QuietRun(e', actions, true);
        }
      }
    }
  }
}
