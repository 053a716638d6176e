/** The joint invariant of the runbook engine: every transaction keeps it, so every run does. */
module RunbookSafety {
  import opened Documents
  import opened Runbook

  ghost predicate StepOk(s: Step, cancelRequested: bool) {
    && (s.lease.Some? <==> Leased(s.status))
    && (s.status.Running? || s.status.Waiting? ==> !s.spec.isRollback)
    && (s.status.RollingBack? ==> s.spec.isRollback)
    && (AwaitsDecision(s) ==> s.status.WaitingApproval? || s.status.Canceled?)
    && (s.attempts == 0 ==> (s.status.Pending? || s.status.Canceled?) && s.approval.None?)
    && (s.status.Pending? ==> s.attempts == 0)
    && 1 <= s.spec.maxAttempts
    && s.attempts <= s.spec.maxAttempts + s.retries
    && (s.status.Retrying? ==> s.attempts < s.spec.maxAttempts + s.retries)
    && (s.status.Canceled? ==> cancelRequested)
  }

  ghost predicate StepsOk(steps: seq<Step>, cancelRequested: bool) {
    forall i | 0 <= i < |steps| :: StepOk(steps[i], cancelRequested)
  }

  ghost predicate SameLane(a: Step, b: Step) {
    a.spec.isRollback == b.spec.isRollback
  }

  /**
   * Of two rows of one lane the lower index has the lower position, and once the later one
   * was ever claimed the earlier one is finished.
   */
  ghost predicate InOrder(a: Step, b: Step) {
    SameLane(a, b) ==> a.spec.position < b.spec.position && (b.attempts > 0 ==> Finished(a.status))
  }

  ghost predicate LaneOrder(steps: seq<Step>) {
    forall i, j | 0 <= i < j < |steps| :: InOrder(steps[i], steps[j])
  }

  ghost predicate ClaimInRange(steps: seq<Step>, c: ClaimRecord) {
    c.step < |steps| && 1 <= c.attempt <= steps[c.step].attempts
  }

  /** A later claim is of a higher attempt if it is of the same step, and of no earlier step of its lane. */
  ghost predicate ClaimedAfter(steps: seq<Step>, c: ClaimRecord, d: ClaimRecord)
    requires c.step < |steps| && d.step < |steps|
  {
    && (c.step == d.step ==> c.attempt < d.attempt)
    && (SameLane(steps[c.step], steps[d.step]) ==> c.step <= d.step)
  }

  ghost predicate ClaimsOk(steps: seq<Step>, claims: seq<ClaimRecord>) {
    && (forall k | 0 <= k < |claims| :: ClaimInRange(steps, claims[k]))
    && (forall k, l | 0 <= k < l < |claims| :: ClaimedAfter(steps, claims[k], claims[l]))
  }

  ghost predicate StatusOk(e: Execution) {
    e.status.ExecCompleted? || e.status.ExecRolledBack? ==> AllSettled(e.steps)
  }

  ghost predicate RowsOk(e: Execution) {
    && StepsOk(e.steps, e.cancelRequested)
    && LaneOrder(e.steps)
    && ClaimsOk(e.steps, e.claims)
  }

  ghost predicate ExecutionOk(e: Execution) {
    RowsOk(e) && StatusOk(e)
  }

  lemma StartOk(id: string, runbook: seq<StepDef>, now: int)
    requires ValidDocument(runbook)
    ensures ExecutionOk(Start(id, runbook, now))
  {
  }

  /** What a transaction on one step row respects. */
  ghost predicate LawfulUpdate(before: Step, after: Step, cancelRequested: bool) {
    && StepOk(after, cancelRequested)
    && after.spec == before.spec
    && before.attempts <= after.attempts
    && (Finished(before.status) ==> after == before)
  }

  lemma UpdateOk(e: Execution, i: nat, s: Step)
    requires RowsOk(e) && i < |e.steps| && LawfulUpdate(e.steps[i], s, e.cancelRequested)
    requires s.attempts > 0 && e.steps[i].attempts == 0 ==>
               forall p | 0 <= p < i && SameLane(e.steps[p], s) :: Finished(e.steps[p].status)
    ensures RowsOk(SetStep(e, i, s))
  {
  }

  lemma NewClaimOk(e: Execution, i: nat, s: Step, worker: string)
    requires RowsOk(e) && i < |e.steps| && !Finished(e.steps[i].status)
    requires s.spec == e.steps[i].spec && s.attempts == e.steps[i].attempts + 1
    requires ClaimsOk(e.steps[i := s], e.claims)
    ensures ClaimsOk(e.steps[i := s], e.claims + [ClaimRecord(i, s.attempts, worker)])
  {
  }

  lemma ClaimOk(e: Execution, i: nat, worker: string, now: int, leaseUntil: int)
    requires ExecutionOk(e) && Claimable(e, i, now)
    ensures ExecutionOk(ClaimStep(e, i, worker, now, leaseUntil).after)
  {
    var s := ClaimStep(e, i, worker, now, leaseUntil).after.steps[i];
    forall p | 0 <= p < i && SameLane(e.steps[p], s)
      ensures Finished(e.steps[p].status)
    {
      assert InOrder(e.steps[p], e.steps[i]);
    }
    UpdateOk(e, i, s);
    NewClaimOk(e, i, s, worker);
  }

  /** The transactions that write one step row without claiming it. */
  predicate WritesOneRow(a: Action) {
    a.Complete? || a.MarkAmbiguous? || a.Recover? || a.ScheduleWait? || a.FireTimer?
    || a.ExpireApproval? || a.OpenApproval? || a.Decide? || a.Retry?
  }

  /** The transaction touches row `i` lawfully, the execution's status, and nothing else. */
  ghost predicate LawfulWrite(e: Execution, i: nat, e': Execution) {
    && i < |e.steps| == |e'.steps|
    && e' == SetStep(e, i, e'.steps[i]).(status := e'.status)
    && LawfulUpdate(e.steps[i], e'.steps[i], e.cancelRequested)
    && e'.steps[i].attempts == e.steps[i].attempts
    && (StatusOk(e) ==> StatusOk(e'))
  }

  lemma CompletionIsLawful(e: Execution, i: nat, worker: string, report: Report, retryAt: int)
    requires CompleteStep(e, i, worker, report, retryAt).Committed? && StepsOk(e.steps, e.cancelRequested)
    ensures LawfulWrite(e, i, CompleteStep(e, i, worker, report, retryAt).after)
  {
  }

  lemma LeaseEndIsLawful(e: Execution, a: Action)
    requires a.MarkAmbiguous? || a.Recover? || a.ScheduleWait? || a.OpenApproval?
    requires Next(e, a).Committed? && StepsOk(e.steps, e.cancelRequested)
    ensures LawfulWrite(e, a.step, Next(e, a).after)
  {
  }

  lemma TimerIsLawful(e: Execution, a: Action)
    requires a.FireTimer? || a.ExpireApproval?
    requires Next(e, a).Committed? && StepsOk(e.steps, e.cancelRequested)
    ensures LawfulWrite(e, a.step, Next(e, a).after)
  {
  }

  lemma DecisionIsLawful(e: Execution, a: Action)
    requires a.Decide? || a.Retry?
    requires Next(e, a).Committed? && StepsOk(e.steps, e.cancelRequested)
    ensures LawfulWrite(e, a.step, Next(e, a).after)
  {
  }

  lemma WriteIsLawful(e: Execution, a: Action)
    requires WritesOneRow(a) && Next(e, a).Committed? && StepsOk(e.steps, e.cancelRequested)
    ensures LawfulWrite(e, a.step, Next(e, a).after)
  {
    if a.Complete? {
      CompletionIsLawful(e, a.step, a.worker, a.report, a.retryAt);
    } else if a.MarkAmbiguous? || a.Recover? || a.ScheduleWait? || a.OpenApproval? {
      LeaseEndIsLawful(e, a);
    } else if a.FireTimer? || a.ExpireApproval? {
      TimerIsLawful(e, a);
    } else {
      DecisionIsLawful(e, a);
    }
  }

  lemma WriteOk(e: Execution, a: Action)
    requires WritesOneRow(a) && Next(e, a).Committed? && ExecutionOk(e)
    ensures ExecutionOk(Next(e, a).after)
  {
    WriteIsLawful(e, a);
    UpdateOk(e, a.step, Next(e, a).after.steps[a.step]);
  }

  lemma CancelOk(e: Execution)
    requires ExecutionOk(e) && CancelExecution(e).Committed?
    ensures ExecutionOk(CancelExecution(e).after)
  {
    var e' := CancelExecution(e).after;
    forall p, j | 0 <= p < j < |e'.steps| ensures InOrder(e'.steps[p], e'.steps[j]) {
      assert InOrder(e.steps[p], e.steps[j]);
    }
    forall k | 0 <= k < |e.claims| ensures ClaimInRange(e'.steps, e.claims[k]) {
      assert ClaimInRange(e.steps, e.claims[k]);
    }
    forall k, l | 0 <= k < l < |e.claims| ensures ClaimedAfter(e'.steps, e.claims[k], e.claims[l]) {
      assert ClaimedAfter(e.steps, e.claims[k], e.claims[l]);
    }
  }

  lemma AppendOk(e: Execution, rows: seq<Step>)
    requires RowsOk(e) && StepsOk(rows, e.cancelRequested)
    requires forall i, j | 0 <= i < j < |rows| :: InOrder(rows[i], rows[j])
    requires forall i, j | 0 <= i < |e.steps| && 0 <= j < |rows| :: !SameLane(e.steps[i], rows[j])
    ensures RowsOk(e.(steps := e.steps + rows))
  {
  }

  ghost predicate IsPlan(rows: seq<Step>) {
    forall j | 0 <= j < |rows| ::
      && rows[j].spec.isRollback && rows[j].spec.position == j && 1 <= rows[j].spec.maxAttempts <= 10
      && rows[j] == Fresh(rows[j].spec, rows[j].nextAttemptAt)
  }

  lemma RollbackAppendsPlan(e: Execution, now: int) returns (rows: seq<Step>)
    requires StartExecutionRollback(e, now).Committed?
    ensures IsPlan(rows) && rows != [] && !HasRollback(e)
    ensures StartExecutionRollback(e, now).after == e.(steps := e.steps + rows, status := ExecRollingBack)
  {
    rows := Plan(e, Sources(e.steps, |e.steps|), now);
  }

  lemma StartRollbackOk(e: Execution, now: int)
    requires ExecutionOk(e) && StartExecutionRollback(e, now).Committed?
    ensures ExecutionOk(StartExecutionRollback(e, now).after)
  {
    var rows := RollbackAppendsPlan(e, now);
    AppendOk(e, rows);
  }

  lemma NextOk(e: Execution, a: Action)
    requires ExecutionOk(e)
    ensures ExecutionOk(Apply(e, a))
  {
    if Next(e, a).Committed? {
      if WritesOneRow(a) {
        WriteOk(e, a);
      } else if a.Claim? {
        ClaimOk(e, a.step, a.worker, a.now, a.leaseUntil);
      } else if a.Cancel? {
        CancelOk(e);
      } else if a.StartRollback? {
        StartRollbackOk(e, a.now);
      }
    }
  }

  lemma {:induction false} RunOk(e: Execution, actions: seq<Action>)
    requires ExecutionOk(e)
    ensures ExecutionOk(Run(e, actions))
    decreases |actions|
  {
    if actions != [] {
      NextOk(e, actions[0]);
      RunOk(Apply(e, actions[0]), actions[1..]);
    }
  }
}
