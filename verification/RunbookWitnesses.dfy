/** Runs from a fresh start that reach each of the states the runbook engine cannot repair. */
module RunbookWitnesses {
  import opened Base
  import opened Documents
  import opened Runbook
  import opened RunbookSafety
  import opened RunbookTheorems
  import opened RunbookProgress
  import opened RunbookRollback

  function Document(kind: StepKind): seq<StepDef> {
    [StepDef("a", kind, 1, None)]
  }

  lemma DocumentIsValid(kind: StepKind)
    ensures ValidDocument(Document(kind))
  {
  }

  /** The only step of the document, claimed by worker "w". */
  function Claimed(id: string, kind: StepKind): Execution {
    var s := Fresh(StepSpec("a", kind, None, false, 0, None, 1, ForwardKey(id, "a")), 0);
    Execution(id, Document(kind), ExecRunning, false,
              [s.(status := Running, attempts := 1, lease := Some(Lease("w", 30)))], [ClaimRecord(0, 1, "w")])
  }

  const CLAIM := Claim(0, "w", 0, 30)

  lemma ReachesClaimed(id: string, kind: StepKind)
    ensures ValidDocument(Document(kind))
    ensures Reached(id, Document(kind), 0, [CLAIM]) == Claimed(id, kind)
    ensures ExecutionOk(Claimed(id, kind)) && AgreesAt(Claimed(id, kind), 0)
  {
    DocumentIsValid(kind);
    var e := Start(id, Document(kind), 0);
    RunThen(e, [], CLAIM);
    assert [] + [CLAIM] == [CLAIM];
    assert Apply(e, CLAIM).steps == Claimed(id, kind).steps;
    ReachedOk(id, Document(kind), 0, [CLAIM]);
  }

  /** A worker that never held the lease fails the execution while its step is still being run. */
  lemma StaleFailureHappens(id: string)
    ensures ValidDocument(Document(Http("")))
    ensures var e := Reached(id, Document(Http("")), 0, [CLAIM, Complete(0, "v", Failure, 0)]);
            !Agrees(e) && e.status.ExecFailed? && |e.steps| == 1 && e.steps[0].status.Running? && HeldBy(e.steps[0], "w")
  {
    var report := Complete(0, "v", Failure, 0);
    ReachesClaimed(id, Http(""));
    RunThen(Start(id, Document(Http("")), 0), [CLAIM], report);
    assert [CLAIM] + [report] == [CLAIM, report];
    StaleFailureBreaksAgreement(Claimed(id, Http("")), 0, "v", 0);
  }

  /** The last step completes while the execution is paused; no run without a cancel ends it after that. */
  lemma {:induction false} PauseStrands(id: string, actions: seq<Action>)
    requires Cancel !in actions
    ensures ValidDocument(Document(Http("")))
    ensures var e := Run(Reached(id, Document(Http("")), 0, [CLAIM]), [Pause, Complete(0, "w", Success(Completed), 0), Resume]);
            && !Agrees(e) && |e.steps| == 1 && e.steps[0].status.Completed?
            && Run(e, actions).steps == e.steps
            && (Run(e, actions).status.ExecRunning? || Run(e, actions).status.ExecPaused?)
  {
    ReachesClaimed(id, Http(""));
    ReportWhilePaused(Claimed(id, Http("")), 0, "w");
    PauseStrandsLastStep(Claimed(id, Http("")), 0, "w", actions);
  }

  /** The execution is canceled under a running step, whose worker then reports an unknown outcome. */
  lemma CanceledIsNotFinal(id: string)
    ensures ValidDocument(Document(Http("")))
    ensures Run(Reached(id, Document(Http("")), 0, [CLAIM]), [Cancel, MarkAmbiguous(0, "w")]).status.ExecAmbiguous?
  {
    ReachesClaimed(id, Http(""));
    var e := Claimed(id, Http(""));
    assert Apply(e, Cancel).steps == e.steps;
    RunThen(e, [], Cancel);
    RunThen(e, [] + [Cancel], MarkAmbiguous(0, "w"));
    assert [] + [Cancel] + [MarkAmbiguous(0, "w")] == [Cancel, MarkAmbiguous(0, "w")];
  }

  /** An approval that was rejected, retried and opened again, as the row then stands. */
  function Reopened(id: string): Step {
    Claimed(id, Approval).steps[0].(status := WaitingApproval, attempts := 2, lease := None, retries := 1,
                                    approval := Some(ApprovalRow(ApprovalRejected, None)))
  }

  const OPEN := OpenApproval(0, "w", None)

  const RETRY := Retry(0, false, 0)

  /** The approval is opened and rejected, and the step is retried. */
  function Rejected(id: string): Execution {
    var e := Claimed(id, Approval);
    e.(steps := [e.steps[0].(status := Retrying, lease := None, nextAttemptAt := 0, retries := 1,
                             approval := Some(ApprovalRow(ApprovalRejected, None)))])
  }

  lemma RejectAndRetry(id: string)
    ensures Run(Claimed(id, Approval), [OPEN, Decide(0, false), RETRY]) == Rejected(id)
  {
    RunOfThree(Claimed(id, Approval), OPEN, Decide(0, false), RETRY);
    var e := Apply(Claimed(id, Approval), OPEN);
    assert e.steps == [e.steps[0]] && AwaitsDecision(e.steps[0]);
    assert Apply(e, Decide(0, false)).steps[0].status.Failed?;
  }

  lemma OpenAgain(id: string)
    ensures var e := Apply(Apply(Rejected(id), CLAIM), OPEN); e.steps == [Reopened(id)] && e.status.ExecWaitingApproval?
  {
    var e := Apply(Rejected(id), CLAIM);
    assert Claimable(Rejected(id), 0, 0);
    assert HeldBy(e.steps[0], "w") && e.steps[0].attempts == 2;
  }

  lemma ReachesReopened(id: string) returns (actions: seq<Action>)
    ensures ValidDocument(Document(Approval))
    ensures var e := Reached(id, Document(Approval), 0, actions); e.steps == [Reopened(id)] && e.status.ExecWaitingApproval?
  {
    hide Apply;
    hide Rejected;
    hide Reopened;
    hide Claimed;
    ReachesClaimed(id, Approval);
    var start := Start(id, Document(Approval), 0);
    RunConcat(start, [CLAIM], [OPEN, Decide(0, false), RETRY]);
    RejectAndRetry(id);
    RunThen(start, [CLAIM] + [OPEN, Decide(0, false), RETRY], CLAIM);
    RunThen(start, [CLAIM] + [OPEN, Decide(0, false), RETRY] + [CLAIM], OPEN);
    actions := [CLAIM] + [OPEN, Decide(0, false), RETRY] + [CLAIM] + [OPEN];
    OpenAgain(id);
  }

  /** From there nothing but a cancel moves the step again. */
  lemma ReopenedStrands(id: string) returns (first: seq<Action>)
    ensures ValidDocument(Document(Approval))
    ensures var e := Reached(id, Document(Approval), 0, first);
            && e.steps == [Reopened(id)]
            && forall actions | Cancel !in actions :: 0 < |Run(e, actions).steps| && Run(e, actions).steps[0] == Reopened(id)
  {
    first := ReachesReopened(id);
    ReachedOk(id, Document(Approval), 0, first);
    var e := Reached(id, Document(Approval), 0, first);
    forall actions | Cancel !in actions
      ensures 0 < |Run(e, actions).steps| && Run(e, actions).steps[0] == Reopened(id)
    {
      DecidedApprovalRests(e, 0, actions);
    }
  }

  // ---- A rollback that cannot finish ---------------------------------------------------------

  const UNDO := ActionDef(Http(""), 1)
  const TWO_STEPS := [StepDef("a", Http(""), 1, Some(UNDO)), StepDef("b", Http(""), 1, None)]

  lemma TwoStepsAreValid()
    ensures ValidDocument(TWO_STEPS)
  {
    assert "a" + "-rollback" == "a-rollback";
  }

  const DONE := Complete(0, "w", Success(Completed), 0)
  const NEXT := Claim(1, "w", 0, 30)
  const FAIL := Complete(1, "w", Failure, 0)

  /** The first step is completed and the second one failed, so the execution did. */
  predicate IsHalfDone(e: Execution, id: string) {
    && e.status.ExecFailed? && |e.steps| == 2 && !e.cancelRequested
    && e.steps[0].status.Completed? && e.steps[0].spec == StepSpec("a", Http(""), Some(UNDO), false, 0, None, 1, ForwardKey(id, "a"))
    && e.steps[1].status.Failed? && e.steps[1].spec == StepSpec("b", Http(""), None, false, 1, None, 1, ForwardKey(id, "b"))
  }

  lemma FirstStepDone(id: string)
    requires ValidDocument(TWO_STEPS)
    ensures var start := Start(id, TWO_STEPS, 0);
            var e := Apply(Apply(start, CLAIM), DONE);
            && |e.steps| == 2 && e.status.ExecRunning? && !e.cancelRequested
            && e.steps[0].status.Completed? && e.steps[0].spec == start.steps[0].spec && e.steps[1] == start.steps[1]
  {
    var start := Start(id, TWO_STEPS, 0);
    var e := Apply(start, CLAIM);
    assert Claimable(start, 0, 0);
    assert e.steps[0].status.Running? && HeldBy(e.steps[0], "w") && e.steps[1] == start.steps[1];
    assert !Settled(e.steps[1].status);
    var done := SetStep(e, 0, e.steps[0].(status := Completed, lease := None));
    assert done.steps[1] == e.steps[1];
    assert Finalize(done) == done;
  }

  lemma SecondStepFails(e: Execution, id: string)
    requires ValidDocument(TWO_STEPS) && |e.steps| == 2 && e.status.ExecRunning? && !e.cancelRequested
    requires e.steps[0].status.Completed? && e.steps[0].spec == ForwardSpec(id, TWO_STEPS[0], 0)
    requires e.steps[1] == Fresh(ForwardSpec(id, TWO_STEPS[1], 1), 0)
    ensures IsHalfDone(Apply(Apply(e, NEXT), FAIL), id)
  {
    assert Claimable(e, 1, 0);
    var e' := Apply(e, NEXT);
    assert e'.steps[1].status.Running? && HeldBy(e'.steps[1], "w") && e'.steps[0] == e.steps[0];
  }

  lemma ReachesHalfDone(id: string) returns (actions: seq<Action>)
    ensures ValidDocument(TWO_STEPS) && IsHalfDone(Reached(id, TWO_STEPS, 0, actions), id)
  {
    hide Apply;
    hide IsHalfDone;
    TwoStepsAreValid();
    var start := Start(id, TWO_STEPS, 0);
    FirstStepDone(id);
    SecondStepFails(Apply(Apply(start, CLAIM), DONE), id);
    RunThen(start, [], CLAIM);
    RunThen(start, [] + [CLAIM], DONE);
    RunThen(start, [] + [CLAIM] + [DONE], NEXT);
    RunThen(start, [] + [CLAIM] + [DONE] + [NEXT], FAIL);
    actions := [] + [CLAIM] + [DONE] + [NEXT] + [FAIL];
  }

  lemma HalfDoneStartsRollback(e: Execution, id: string)
    requires IsHalfDone(e, id)
    ensures StartExecutionRollback(e, 0).Committed? && !ForwardCanSettle(e)
  {
    assert Sources(e.steps, 1) == [0] + Sources(e.steps, 0);
    assert Sources(e.steps, 2) == [0];
    assert "rollback-" + "a" == "rollback-a" && "rollback-a" != "a" && "rollback-a" != "b";
    assert !KeyClash(e.steps, [0]);
  }

  /** Its rollback starts, and no run at all brings it to rolled_back. */
  lemma FailedRollbackNeverFinishes(id: string) returns (first: seq<Action>)
    ensures ValidDocument(TWO_STEPS)
    ensures var e := Reached(id, TWO_STEPS, 0, first);
            && StartExecutionRollback(e, 0).Committed?
            && forall actions :: !Run(StartExecutionRollback(e, 0).after, actions).status.ExecRolledBack?
  {
    hide StartExecutionRollback;
    hide ForwardCanSettle;
    hide IsHalfDone;
    first := ReachesHalfDone(id);
    ReachedOk(id, TWO_STEPS, 0, first);
    HalfDoneStartsRollback(Reached(id, TWO_STEPS, 0, first), id);
    RollbackCanFinish(Reached(id, TWO_STEPS, 0, first), 0);
  }
}
