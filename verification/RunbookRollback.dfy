/** Rollback: the plan of compensations, the order they run in, and when they can finish. */
module RunbookRollback {
  import opened Base
  import opened Documents
  import opened Runbook
  import opened RunbookSafety
  import opened RunbookTheorems
  import opened RunbookProgress

  /** Row `j` undoes a completed forward step and clashes with no forward step's key. */
  ghost predicate IsCompensation(id: string, runbook: seq<StepDef>, steps: seq<Step>, j: nat)
    requires |runbook| <= j < |steps|
  {
    && steps[j].spec.rollbackOf.Some?
    && var f := steps[j].spec.rollbackOf.value;
    && f < |runbook|
    && runbook[f].rollback.Some?
    && ParsedAttempts(runbook[f].rollback.value.maxAttempts).Some?
    && steps[f].status.Completed?
    && steps[j].spec == CompensationSpec(id, runbook[f].id, runbook[f].rollback.value, f, j - |runbook|)
    && forall i | 0 <= i < |runbook| :: runbook[i].id != steps[j].spec.key
  }

  ghost predicate UndoneBefore(a: Step, b: Step) {
    a.spec.rollbackOf.Some? && b.spec.rollbackOf.Some? && b.spec.rollbackOf.value < a.spec.rollbackOf.value
  }

  /** The forward steps of the document in order, then the compensations in reverse order. */
  ghost predicate LayoutOk(id: string, runbook: seq<StepDef>, steps: seq<Step>) {
    && ValidDocument(runbook)
    && |runbook| <= |steps|
    && (forall i | 0 <= i < |runbook| :: steps[i].spec == ForwardSpec(id, runbook[i], i))
    && (forall j | |runbook| <= j < |steps| :: IsCompensation(id, runbook, steps, j))
    && (forall j, k | |runbook| <= j < k < |steps| :: UndoneBefore(steps[j], steps[k]))
  }

  lemma LayoutFrame(id: string, runbook: seq<StepDef>, steps: seq<Step>, steps': seq<Step>)
    requires LayoutOk(id, runbook, steps) && |steps'| == |steps|
    requires forall i | 0 <= i < |steps| ::
               steps'[i].spec == steps[i].spec && (steps[i].status.Completed? ==> steps'[i].status.Completed?)
    ensures LayoutOk(id, runbook, steps')
  {
    forall j | |runbook| <= j < |steps'| ensures IsCompensation(id, runbook, steps', j) {
      assert IsCompensation(id, runbook, steps, j);
    }
    forall j, k | |runbook| <= j < k < |steps'| ensures UndoneBefore(steps'[j], steps'[k]) {
      assert UndoneBefore(steps[j], steps[k]);
    }
  }

  /** Before the first rollback every row is a forward step of the document. */
  lemma NoRollbackYet(e: Execution)
    requires LayoutOk(e.id, e.runbook, e.steps) && !HasRollback(e)
    ensures |e.steps| == |e.runbook|
  {
    assert |e.runbook| < |e.steps| ==> IsCompensation(e.id, e.runbook, e.steps, |e.runbook|);
  }

  lemma PlanLayout(e: Execution, sources: seq<nat>, now: int)
    requires LayoutOk(e.id, e.runbook, e.steps) && |e.steps| == |e.runbook|
    requires forall j | 0 <= j < |sources| :: sources[j] < |e.steps| && Compensable(e.steps[sources[j]])
    requires forall j, k | 0 <= j < k < |sources| :: sources[k] < sources[j]
    requires Parsable(e.steps, sources) && !KeyClash(e.steps, sources)
    ensures LayoutOk(e.id, e.runbook, e.steps + Plan(e, sources, now))
  {
    var n := |e.runbook|;
    var steps := e.steps + Plan(e, sources, now);
    forall j | n <= j < |steps| ensures IsCompensation(e.id, e.runbook, steps, j) {
      var f := sources[j - n];
      forall i | 0 <= i < n ensures e.runbook[i].id != steps[j].spec.key {
        assert e.steps[i].spec.key == e.runbook[i].id;
      }
    }
    forall j, k | n <= j < k < |steps| ensures UndoneBefore(steps[j], steps[k]) {
      assert sources[k - n] < sources[j - n];
    }
  }

  /** Whatever commits, a row keeps its fixed columns and a completed step stays completed. */
  lemma RowsKept(e: Execution, a: Action)
    requires ExecutionOk(e)
    ensures |e.steps| <= |Apply(e, a).steps|
    ensures forall i | 0 <= i < |e.steps| ::
              && Apply(e, a).steps[i].spec == e.steps[i].spec
              && (e.steps[i].status.Completed? ==> Apply(e, a).steps[i].status.Completed?)
  {
    hide Next;
    forall i | 0 <= i < |e.steps|
      ensures i < |Apply(e, a).steps| && Apply(e, a).steps[i].spec == e.steps[i].spec
      ensures e.steps[i].status.Completed? ==> Apply(e, a).steps[i].status.Completed?
    {
      RowFrame(e, a, i);
      if e.steps[i].status.Completed? { RestingRow(e, a, i); }
    }
    if e.steps != [] { RowFrame(e, a, |e.steps| - 1); }
  }

  lemma NoInsert(e: Execution, a: Action)
    ensures Apply(e, a).id == e.id && Apply(e, a).runbook == e.runbook
    ensures !a.StartRollback? || Next(e, a).Aborted? ==> |Apply(e, a).steps| == |e.steps|
  {
  }

  lemma LayoutStep(e: Execution, a: Action)
    requires ExecutionOk(e) && LayoutOk(e.id, e.runbook, e.steps)
    ensures LayoutOk(Apply(e, a).id, Apply(e, a).runbook, Apply(e, a).steps)
    ensures Apply(e, a).id == e.id && Apply(e, a).runbook == e.runbook
  {
    NoInsert(e, a);
    if a.StartRollback? && Next(e, a).Committed? {
      hide LayoutOk;
      hide ExecutionOk;
      NoRollbackYet(e);
      PlanLayout(e, Sources(e.steps, |e.steps|), a.now);
    } else {
      hide Next;
      hide LayoutOk;
      RowsKept(e, a);
      LayoutFrame(e.id, e.runbook, e.steps, Apply(e, a).steps);
    }
  }

  lemma {:induction false} LayoutRun(e: Execution, actions: seq<Action>)
    requires ExecutionOk(e) && LayoutOk(e.id, e.runbook, e.steps)
    ensures LayoutOk(Run(e, actions).id, Run(e, actions).runbook, Run(e, actions).steps)
    ensures Run(e, actions).id == e.id && Run(e, actions).runbook == e.runbook
    decreases |actions|
  {
    hide Next;
    hide LayoutOk;
    hide ExecutionOk;
    if actions != [] {
      LayoutStep(e, actions[0]);
      NextOk(e, actions[0]);
      LayoutRun(Apply(e, actions[0]), actions[1..]);
    }
  }

  lemma ReachedLayout(id: string, runbook: seq<StepDef>, now: int, actions: seq<Action>)
    requires ValidDocument(runbook)
    ensures LayoutOk(id, runbook, Reached(id, runbook, now, actions).steps)
    ensures Reached(id, runbook, now, actions).id == id && Reached(id, runbook, now, actions).runbook == runbook
  {
    StartOk(id, runbook, now);
    LayoutRun(Start(id, runbook, now), actions);
  }

  /** In every reachable state a forward row is the document's step, and a compensation the action of the step it undoes. */
  lemma RowsMatchDocument(id: string, runbook: seq<StepDef>, now: int, actions: seq<Action>, i: nat)
    requires ValidDocument(runbook) && i < |Reached(id, runbook, now, actions).steps|
    ensures var s := Reached(id, runbook, now, actions).steps[i].spec;
            if i < |runbook| then
              && !s.isRollback && s.position == i && s.key == runbook[i].id && s.kind == runbook[i].kind
              && s.rollback == runbook[i].rollback && s.rollbackOf == None
              && s.maxAttempts == (if runbook[i].maxAttempts == 0 then 3 else runbook[i].maxAttempts)
            else
              && s.isRollback && s.position == i - |runbook| && s.rollback == None
              && s.rollbackOf.Some? && s.rollbackOf.value < |runbook|
              && var d := runbook[s.rollbackOf.value];
                 && d.rollback.Some? && s.kind == d.rollback.value.kind && s.key == "rollback-" + d.id
                 && s.maxAttempts == (if d.rollback.value.maxAttempts == 0 then 3 else d.rollback.value.maxAttempts)
  {
    hide Run;
    ReachedLayout(id, runbook, now, actions);
    var steps := Reached(id, runbook, now, actions).steps;
    if i >= |runbook| { assert IsCompensation(id, runbook, steps, i); }
  }

  // ---- The plan ---------------------------------------------------------------------------

  lemma PlanSources(e: Execution, now: int)
    requires StartExecutionRollback(e, now).Committed?
    ensures !HasRollback(e)
    ensures var sources := Sources(e.steps, |e.steps|);
            var steps := StartExecutionRollback(e, now).after.steps;
            && e.steps <= steps && |steps| == |e.steps| + |sources|
            && forall j | 0 <= j < |sources| :: steps[|e.steps| + j].spec.rollbackOf == Some(sources[j])
  {
    hide KeyClash;
    hide Parsable;
    hide CompensationKey;
    var sources := Sources(e.steps, |e.steps|);
    hide Sources;
    assert StartExecutionRollback(e, now).after.steps == e.steps + Plan(e, sources, now);
  }

  lemma PairedUp(before: seq<Step>, sources: seq<nat>, after: seq<Step>)
    requires before <= after && |after| == |before| + |sources|
    requires forall j | 0 <= j < |sources| :: after[|before| + j].spec.rollbackOf == Some(sources[j])
    requires forall j, k | 0 <= j < k < |sources| :: sources[k] < sources[j]
    requires forall f | 0 <= f < |before| :: Compensable(before[f]) <==> f in sources
    ensures forall f | 0 <= f < |before| :: Compensable(before[f]) <==>
              exists j | |before| <= j < |after| :: after[j].spec.rollbackOf == Some(f)
    ensures forall j, k | |before| <= j < k < |after| :: UndoneBefore(after[j], after[k])
  {
    var n := |before|;
    forall j | n <= j < |after| ensures after[j].spec.rollbackOf == Some(sources[j - n]) {
      assert after[n + (j - n)].spec.rollbackOf == Some(sources[j - n]);
    }
    forall f | 0 <= f < n && f in sources
      ensures exists j | n <= j < |after| :: after[j].spec.rollbackOf == Some(f)
    {
      var j :| 0 <= j < |sources| && sources[j] == f;
      assert after[n + j].spec.rollbackOf == Some(f);
    }
    forall j, k | n <= j < k < |after| ensures UndoneBefore(after[j], after[k]) {
      assert sources[k - n] < sources[j - n];
    }
  }

  /** The new rows pair one-to-one with the completed steps that define a rollback, highest first. */
  lemma PlanIsExact(e: Execution, now: int)
    requires StartExecutionRollback(e, now).Committed?
    ensures var steps := StartExecutionRollback(e, now).after.steps;
            && e.steps <= steps
            && (forall f | 0 <= f < |e.steps| :: Compensable(e.steps[f]) <==>
                  exists j | |e.steps| <= j < |steps| :: steps[j].spec.rollbackOf == Some(f))
            && (forall j, k | |e.steps| <= j < k < |steps| :: UndoneBefore(steps[j], steps[k]))
  {
    hide StartExecutionRollback;
    PlanSources(e, now);
    PairedUp(e.steps, Sources(e.steps, |e.steps|), StartExecutionRollback(e, now).after.steps);
  }

  /** Two steps of the document one of which has the name of the other's compensation. */
  ghost predicate NamesClash(runbook: seq<StepDef>, f: nat, i: nat) {
    f < |runbook| && i < |runbook| && runbook[i].id == "rollback-" + runbook[f].id
  }

  ghost predicate PlanClashes(runbook: seq<StepDef>, steps: seq<Step>) {
    exists f: nat, i: nat :: f < |steps| && Compensable(steps[f]) && NamesClash(runbook, f, i)
  }

  lemma {:induction false} PlanParses(id: string, runbook: seq<StepDef>, steps: seq<Step>)
    requires LayoutOk(id, runbook, steps) && |steps| == |runbook|
    ensures Parsable(steps, Sources(steps, |steps|))
  {
    hide ParsedAttempts;
    hide ValidAction;
    var sources := Sources(steps, |steps|);
    forall j | 0 <= j < |sources| ensures ParsedAttempts(steps[sources[j]].spec.rollback.value.maxAttempts).Some? {
      AttemptsParse(runbook[sources[j]]);
    }
  }

  lemma AttemptsParse(d: StepDef)
    requires ValidStep(d) && d.rollback.Some?
    ensures ParsedAttempts(d.rollback.value.maxAttempts).Some?
  {
  }

  lemma {:induction false} ClashIsNames(runbook: seq<StepDef>, steps: seq<Step>)
    requires |steps| == |runbook| && forall i | 0 <= i < |steps| :: steps[i].spec.key == runbook[i].id
    ensures KeyClash(steps, Sources(steps, |steps|)) <==> PlanClashes(runbook, steps)
  {
    var sources := Sources(steps, |steps|);
    if i, j :| 0 <= i < |steps| && 0 <= j < |sources| && steps[i].spec.key == "rollback-" + steps[sources[j]].spec.key {
      assert Compensable(steps[sources[j]]) && NamesClash(runbook, sources[j], i);
    }
    if f: nat, i: nat :| f < |steps| && Compensable(steps[f]) && NamesClash(runbook, f, i) {
      var j :| 0 <= j < |sources| && sources[j] == f;
      assert steps[i].spec.key == "rollback-" + steps[sources[j]].spec.key;
    }
  }

  /** The plan of a reachable execution always parses: it is rejected exactly for a clash of names. */
  lemma PlanRejectedIff(id: string, runbook: seq<StepDef>, now: int, actions: seq<Action>, at: int)
    requires ValidDocument(runbook)
    ensures var e := Reached(id, runbook, now, actions);
            StartExecutionRollback(e, at) == Aborted(PlanRejected) <==>
            && (e.status.ExecCompleted? || e.status.ExecFailed? || e.status.ExecAmbiguous?)
            && !HasRollback(e) && PlanClashes(runbook, e.steps)
  {
    hide Run;
    hide Parsable;
    hide KeyClash;
    hide PlanClashes;
    var e := Reached(id, runbook, now, actions);
    ReachedLayout(id, runbook, now, actions);
    if !HasRollback(e) {
      NoRollbackYet(e);
      PlanParses(id, runbook, e.steps);
      ClashIsNames(runbook, e.steps);
      if PlanClashes(runbook, e.steps) { SomeSource(runbook, e.steps); }
    }
  }

  lemma {:induction false} SomeSource(runbook: seq<StepDef>, steps: seq<Step>)
    requires PlanClashes(runbook, steps)
    ensures Sources(steps, |steps|) != []
  {
  }

  lemma OnlyStartRollsBack(e: Execution, a: Action)
    ensures Apply(e, a).status.ExecRollingBack? ==> e.status.ExecRollingBack? || a.StartRollback?
    ensures HasRollback(e) && a.StartRollback? ==> Next(e, a).Aborted?
  {
  }

  lemma PlanStays(e: Execution, a: Action)
    requires ExecutionOk(e) && HasRollback(e)
    ensures |Apply(e, a).steps| == |e.steps| && HasRollback(Apply(e, a))
    ensures Apply(e, a).status.ExecRollingBack? ==> e.status.ExecRollingBack?
  {
    NoInsert(e, a);
    OnlyStartRollsBack(e, a);
    hide Next;
    var r :| 0 <= r < |e.steps| && e.steps[r].spec.isRollback;
    RowFrame(e, a, r);
    assert Apply(e, a).steps[r].spec.isRollback;
  }

  /** An execution gets at most one plan: once there is one, no run inserts another row. */
  lemma {:induction false} OnePlanOnly(e: Execution, actions: seq<Action>)
    requires ExecutionOk(e) && HasRollback(e)
    ensures |Run(e, actions).steps| == |e.steps|
    ensures forall i | 0 <= i < |e.steps| :: Run(e, actions).steps[i].spec == e.steps[i].spec
    decreases |actions|
  {
    hide Next;
    hide ExecutionOk;
    hide HasRollback;
    if actions != [] {
      PlanStays(e, actions[0]);
      RowsKept(e, actions[0]);
      NextOk(e, actions[0]);
      OnePlanOnly(Apply(e, actions[0]), actions[1..]);
    }
  }

  /** Compensations start in strictly decreasing position of the steps they undo. */
  lemma CompensationsRunInReverse(id: string, runbook: seq<StepDef>, now: int, actions: seq<Action>, k: nat, l: nat)
    requires ValidDocument(runbook) && k < l < |Reached(id, runbook, now, actions).claims|
    requires var e := Reached(id, runbook, now, actions);
             && e.claims[k].step < |e.steps| && e.steps[e.claims[k].step].spec.isRollback
             && e.claims[l].step < |e.steps| && e.steps[e.claims[l].step].spec.isRollback
             && e.claims[k].step != e.claims[l].step
    ensures var e := Reached(id, runbook, now, actions);
            UndoneBefore(e.steps[e.claims[k].step], e.steps[e.claims[l].step])
  {
    var e := Reached(id, runbook, now, actions);
    ReachedOk(id, runbook, now, actions);
    ReachedLayout(id, runbook, now, actions);
    assert ClaimedAfter(e.steps, e.claims[k], e.claims[l]);
    assert e.claims[k].step >= |runbook|;
  }

  // ---- Leaving a rollback -----------------------------------------------------------------

  /**
   * Nothing but the start of a rollback sets the status back to rolling_back, and a rollback
   * starts once: after a recovered lease, a failure or a retry no compensation is ever claimed.
   */
  lemma {:induction false} RollbackNeverResumes(e: Execution, actions: seq<Action>)
    requires ExecutionOk(e) && HasRollback(e) && !e.status.ExecRollingBack?
    ensures !Run(e, actions).status.ExecRollingBack?
    ensures e.claims <= Run(e, actions).claims
    ensures forall k | |e.claims| <= k < |Run(e, actions).claims| ::
              var i := Run(e, actions).claims[k].step; i < |e.steps| && !e.steps[i].spec.isRollback
    decreases |actions|
  {
    hide Next;
    hide ExecutionOk;
    hide HasRollback;
    if actions != [] {
      var a := actions[0];
      var e' := Apply(e, a);
      PlanStays(e, a);
      RowsKept(e, a);
      ClaimFrame(e, a);
      NextOk(e, a);
      RollbackNeverResumes(e', actions[1..]);
      ClaimsOnlyGrow(e', actions[1..]);
    }
  }

  // ---- When a rollback can finish ---------------------------------------------------------

  /** What can still become of a row while the execution stays in rolling_back. */
  ghost predicate CanSettle(s: Step, cancelRequested: bool) {
    || Settled(s.status)
    || (if s.spec.isRollback
        then s.status.RollingBack? || (!cancelRequested && (s.status.Pending? || s.status.Retrying?))
        else s.status.Running? || s.status.Waiting?)
  }

  ghost predicate AllCanSettle(e: Execution) {
    forall i | 0 <= i < |e.steps| :: CanSettle(e.steps[i], e.cancelRequested)
  }

  predicate InRollback(e: Execution) {
    e.status.ExecRollingBack? || e.status.ExecRolledBack?
  }

  lemma OutsideStaysOutside(e: Execution, a: Action)
    requires ExecutionOk(e) && HasRollback(e) && !InRollback(e)
    ensures !InRollback(Apply(e, a))
  {
    OnlyStartRollsBack(e, a);
  }

  lemma {:induction false} OutsideForGood(e: Execution, actions: seq<Action>)
    requires ExecutionOk(e) && HasRollback(e) && !InRollback(e)
    ensures !InRollback(Run(e, actions))
    decreases |actions|
  {
    hide Next;
    hide ExecutionOk;
    hide HasRollback;
    hide InRollback;
    if actions != [] {
      OutsideStaysOutside(e, actions[0]);
      PlanStays(e, actions[0]);
      NextOk(e, actions[0]);
      OutsideForGood(Apply(e, actions[0]), actions[1..]);
    }
  }

  lemma CouldSettleBefore(e: Execution, a: Action, i: nat)
    requires ExecutionOk(e) && InRollback(e) && InRollback(Apply(e, a)) && HasRollback(e) && i < |e.steps|
    requires i < |Apply(e, a).steps| && CanSettle(Apply(e, a).steps[i], Apply(e, a).cancelRequested)
    ensures CanSettle(e.steps[i], e.cancelRequested)
  {
    RowFrame(e, a, i);
    hide ExecutionOk;
    hide RowsOk;
    hide HasRollback;
    OnlyStartRollsBack(e, a);
  }

  /** No run, whatever operators do in it, finishes a rollback in which some row cannot settle. */
  lemma {:induction false} FinishedRollbackCouldSettle(e: Execution, actions: seq<Action>)
    requires ExecutionOk(e) && HasRollback(e)
    requires Run(e, actions).status.ExecRolledBack?
    ensures AllCanSettle(e)
    decreases |actions|
  {
    hide Next;
    hide HasRollback;
    hide CanSettle;
    if actions == [] {
      forall i | 0 <= i < |e.steps| ensures CanSettle(e.steps[i], e.cancelRequested) {
        assert Settled(e.steps[i].status);
        SettledCanSettle(e.steps[i], e.cancelRequested);
      }
    } else {
      var e' := Apply(e, actions[0]);
      NextOk(e, actions[0]);
      PlanStays(e, actions[0]);
      if !InRollback(e) { OutsideForGood(e, actions); }
      if !InRollback(e') { OutsideForGood(e', actions[1..]); }
      FinishedRollbackCouldSettle(e', actions[1..]);
      forall i | 0 <= i < |e.steps| ensures CanSettle(e.steps[i], e.cancelRequested) {
        CouldSettleBefore(e, actions[0], i);
      }
    }
  }

  lemma SettledCanSettle(s: Step, cancelRequested: bool)
    requires Settled(s.status)
    ensures CanSettle(s, cancelRequested)
  {
  }

  /** Every compensation that has ended undid its step. */
  ghost predicate UndoneOrOpen(steps: seq<Step>) {
    forall i | 0 <= i < |steps| && steps[i].spec.isRollback && Settled(steps[i].status) :: steps[i].status == RolledBack
  }

  /** A rollback under way in which every row can still settle. */
  ghost predicate CanFinish(e: Execution) {
    && ExecutionOk(e) && !e.cancelRequested && AllCanSettle(e) && UndoneOrOpen(e.steps)
    && (if AllSettled(e.steps) then e.status.ExecRolledBack? else e.status.ExecRollingBack?)
  }

  ghost predicate FirstUnsettled(e: Execution, i: nat) {
    && i < |e.steps| && !Settled(e.steps[i].status)
    && forall p | 0 <= p < i :: Settled(e.steps[p].status)
  }

  lemma FirstUnsettledClaimable(e: Execution, i: nat)
    requires CanFinish(e) && FirstUnsettled(e, i)
    requires e.steps[i].status.Pending? || e.steps[i].status.Retrying?
    ensures Claimable(e, i, e.steps[i].nextAttemptAt)
  {
  }

  lemma RollbackAction(e: Execution, i: nat) returns (a: Action)
    requires CanFinish(e) && FirstUnsettled(e, i)
    ensures !IsControl(a) && a.step == i && Next(e, a).Committed?
    ensures var e' := Next(e, a).after;
            && i < |e'.steps| && e'.steps[i] != e.steps[i] && CanSettle(e'.steps[i], e'.cancelRequested)
            && (e'.steps[i].spec.isRollback && Settled(e'.steps[i].status) ==> e'.steps[i].status == RolledBack)
            && e'.status == if AllSettled(e'.steps) then ExecRolledBack else ExecRollingBack
  {
    var s := e.steps[i];
    if s.status.Pending? || s.status.Retrying? {
      a := Claim(i, "worker", s.nextAttemptAt, s.nextAttemptAt);
      FirstUnsettledClaimable(e, i);
    } else if s.status.Waiting? {
      a := FireTimer(i, s.waitUntil);
    } else {
      a := Complete(i, s.lease.value.owner, Success(if s.spec.isRollback then RolledBack else Completed), 0);
    }
    hide ExecutionOk;
    hide AllCanSettle;
    assert !Settled(Next(e, a).after.steps[i].status) ==> !AllSettled(Next(e, a).after.steps);
  }

  lemma {:induction false} SomeFirstUnsettled(e: Execution, n: nat) returns (i: nat)
    requires n <= |e.steps| && exists p | 0 <= p < n :: !Settled(e.steps[p].status)
    ensures FirstUnsettled(e, i)
  {
    if p :| 0 <= p < n - 1 && !Settled(e.steps[p].status) {
      i := SomeFirstUnsettled(e, n - 1);
    } else {
      i := n - 1;
    }
  }

  /** The first unsettled row always has a transaction that brings it closer to its end. */
  lemma RollbackStep(e: Execution) returns (a: Action)
    requires CanFinish(e) && e.status.ExecRollingBack?
    ensures !IsControl(a) && CanFinish(Apply(e, a)) && Apply(e, a).steps != e.steps
  {
    var i := SomeFirstUnsettled(e, |e.steps|);
    a := RollbackAction(e, i);
    hide Next;
    NextOk(e, a);
    OneRowFrame(e, a);
  }

  ghost predicate AllUndone(steps: seq<Step>) {
    forall i | 0 <= i < |steps| && steps[i].spec.isRollback :: steps[i].status == RolledBack
  }

  lemma FinishRollback(e: Execution) returns (actions: seq<Action>)
    requires CanFinish(e)
    ensures ControlFree(actions) && Run(e, actions).status.ExecRolledBack? && AllUndone(Run(e, actions).steps)
    decreases TotalPotential(e.steps)
  {
    hide Next;
    if e.status.ExecRollingBack? {
      var a := RollbackStep(e);
      PotentialDrops(e, a);
      PotentialNonNegative(e.steps, e.cancelRequested);
      PotentialNonNegative(Apply(e, a).steps, Apply(e, a).cancelRequested);
      var rest := FinishRollback(Apply(e, a));
      actions := [a] + rest;
      assert actions[1..] == rest;
    } else {
      actions := [];
    }
  }

  /** No forward step is in the way of the rollback's end. */
  ghost predicate ForwardCanSettle(e: Execution) {
    forall i | 0 <= i < |e.steps| ::
      Settled(e.steps[i].status) || e.steps[i].status.Running? || e.steps[i].status.Waiting?
  }

  lemma PlanCanSettle(e: Execution, rows: seq<Step>, e': Execution)
    requires IsPlan(rows) && rows != [] && !HasRollback(e)
    requires e' == e.(steps := e.steps + rows, status := ExecRollingBack)
    ensures HasRollback(e') && !AllSettled(e'.steps) && UndoneOrOpen(e'.steps)
    ensures AllCanSettle(e') <==> !e.cancelRequested && ForwardCanSettle(e)
  {
    var n := |e.steps|;
    assert e'.steps[n] == rows[0];
    forall i | 0 <= i < n
      ensures CanSettle(e'.steps[i], e'.cancelRequested) <==>
              Settled(e.steps[i].status) || e.steps[i].status.Running? || e.steps[i].status.Waiting?
    {
      assert e'.steps[i] == e.steps[i];
    }
    forall i | n <= i < |e'.steps| ensures CanSettle(e'.steps[i], e'.cancelRequested) <==> !e.cancelRequested {
      assert e'.steps[i] == rows[i - n];
    }
  }

  lemma StartedRollback(e: Execution, now: int)
    requires ExecutionOk(e) && StartExecutionRollback(e, now).Committed?
    ensures var e' := StartExecutionRollback(e, now).after;
            && ExecutionOk(e') && HasRollback(e') && e'.status.ExecRollingBack? && !AllSettled(e'.steps)
            && e'.cancelRequested == e.cancelRequested && UndoneOrOpen(e'.steps)
            && (AllCanSettle(e') <==> !e.cancelRequested && ForwardCanSettle(e))
  {
    hide StartExecutionRollback;
    hide ExecutionOk;
    hide HasRollback;
    hide AllCanSettle;
    hide ForwardCanSettle;
    StartRollbackOk(e, now);
    var rows := RollbackAppendsPlan(e, now);
    PlanCanSettle(e, rows, StartExecutionRollback(e, now).after);
  }

  /**
   * Finalisation counts the rows of both lanes, so a started rollback can reach rolled_back if
   * and only if cancellation was never requested and every forward step has settled or is still
   * running or waiting; then it needs no command, and every compensation undoes its step. Otherwise no retry, resume or other command
   * helps. In particular nothing does when a step failed.
   */
  lemma RollbackCanFinish(e: Execution, now: int)
    requires ExecutionOk(e) && StartExecutionRollback(e, now).Committed?
    ensures (exists actions :: Run(StartExecutionRollback(e, now).after, actions).status.ExecRolledBack?)
            <==> !e.cancelRequested && ForwardCanSettle(e)
    ensures !e.cancelRequested && ForwardCanSettle(e) ==>
              exists actions :: ControlFree(actions)
                && Run(StartExecutionRollback(e, now).after, actions).status.ExecRolledBack?
                && AllUndone(Run(StartExecutionRollback(e, now).after, actions).steps)
  {
    hide StartExecutionRollback;
    hide ExecutionOk;
    hide HasRollback;
    hide AllCanSettle;
    hide ForwardCanSettle;
    var e' := StartExecutionRollback(e, now).after;
    StartedRollback(e, now);
    if actions :| Run(e', actions).status.ExecRolledBack? {
      FinishedRollbackCouldSettle(e', actions);
    }
    if !e.cancelRequested && ForwardCanSettle(e) {
      var actions := FinishRollback(e');
    }
  }
}
